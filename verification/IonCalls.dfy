/**
  The calls of ion.c as state changes, from one idle device to the next, and what each of them keeps: exact
  krefs, no dangling link, one handle per client and buffer, one free per buffer, and exact map counts.
 */
module IonCalls {
  import opened IonRefs
  import opened Options
  import opened IonRuns
  import opened IonMaps

  ghost predicate Idle(s: State) {
    s.heldB == multiset{} && s.heldH == multiset{} && s.heldC == multiset{}
  }

  /** Between calls every reference is accounted for. */
  ghost predicate DeviceRefs(s: State) {
    Idle(s) && RefInv(s)
  }

  /** The map counts are right; `kernel` and `dma` are the buffers whose heap mapping is in effect. */
  ghost predicate DeviceMaps(s: State, kernel: set<nat>, dma: set<nat>) {
    && MapsCounted(s.buffers, s.handles, Kernel, kernel)
    && MapsCounted(s.buffers, s.handles, Dma, dma)
  }

  predicate Unmapped(s: State, h: nat) {
    h in s.handles ==> s.handles[h].kmap == 0 && s.handles[h].dmap == 0
  }

  /** Dropping a reference to h destroys no mapped handle. */
  predicate MayDrop(s: State, h: nat) {
    h in s.handles && s.handles[h].ref <= 1 ==> Unmapped(s, h)
  }

  // ----- results -----

  function AddRefBuffer(s: State, b: nat): State {
    if b in s.buffers then s.(buffers := s.buffers[b := s.buffers[b].(ref := s.buffers[b].ref + 1)]) else s
  }

  function AddRefClient(s: State, c: nat): State {
    if c in s.clients then s.(clients := s.clients[c := s.clients[c].(ref := s.clients[c].ref + 1)]) else s
  }

  function NewClientState(s: State, c: nat, task: Option<nat>): State {
    s.(clients := s.clients[c := Client(1, task)])
  }

  /** ion_open, ion_client_create: c is the client of this task if it has one, and a new one otherwise. */
  function Opened(s: State, c: nat, o: nat, task: Option<nat>): State {
    var t := if c in s.clients then AddRefClient(s, c) else NewClientState(s, c, task);
    t.(opens := t.opens[o := c])
  }

  function Allocated(s: State, c: nat, b: nat, h: nat): State {
    s.(buffers := s.buffers[b := Buffer(1, 0, 0)], handles := s.handles[h := Handle(1, c, b, 0, 0)],
       taken := s.taken + multiset{h}, born := s.born + {b})
  }

  /** ion_alloc when no handle can be had: the buffer is made and freed again. */
  function AllocUndone(s: State, b: nat): State {
    s.(born := s.born + {b}, freed := s.freed + multiset{b})
  }

  function Freed(s: State, h: nat): State {
    HandlePut(s.(taken := s.taken - multiset{h}), h)
  }

  function BuffersImported(buffers: map<nat, Buffer>, handles: map<nat, Handle>, b: nat, h: nat): map<nat, Buffer> {
    if h in handles || b !in buffers then buffers else buffers[b := buffers[b].(ref := buffers[b].ref + 1)]
  }

  function HandlesImported(handles: map<nat, Handle>, c: nat, b: nat, h: nat): map<nat, Handle> {
    if h in handles then handles[h := handles[h].(ref := handles[h].ref + 1)]
    else handles[h := Handle(1, c, b, 0, 0)]
  }

  /** The handle the import ends up with, one reference richer; h is new when the client had none for b. */
  function Imported(s: State, c: nat, b: nat, h: nat): State {
    s.(buffers := BuffersImported(s.buffers, s.handles, b, h), handles := HandlesImported(s.handles, c, b, h))
  }

  /** ion_handle_create: a new handle takes a reference to its buffer. */
  function NewHandleState(s: State, c: nat, b: nat, h: nat): State {
    AddRefBuffer(s, b).(handles := s.handles[h := Handle(1, c, b, 0, 0)])
  }

  function Shared(s: State, f: nat, b: nat): State {
    AddRefBuffer(s, b).(files := s.files[f := b])
  }

  function ShareReleased(s: State, f: nat): State {
    if f in s.files then BufferPut(s.(files := s.files - {f}), s.files[f]) else s
  }

  /** ion_share_mmap on success: the mapping has a reference to the handle and one to its client. */
  function Mmapped(s: State, c: nat, b: nat, h: nat, v: nat): State {
    var t := Imported(AddRefClient(s, c), c, b, h);
    t.(vmas := t.vmas[v := h])
  }

  /** _ion_client_destroy visits the client's handles in the order of its tree. */
  function HandlesDestroyed(s: State, order: seq<nat>): State {
    if order == [] then s
    else
      var t := HandlesDestroyed(s, order[..|order| - 1]);
      var h := order[|order| - 1];
      HandleDestroy(t, h).(taken := t.taken[h := 0])
  }

  function ClientPut(s: State, c: nat, order: seq<nat>): State {
    if c !in s.clients then s
    else if s.clients[c].ref > 1 then s.(clients := s.clients[c := s.clients[c].(ref := s.clients[c].ref - 1)])
    else
      var t := HandlesDestroyed(s, order);
      t.(clients := t.clients - {c})
  }

  function Released(s: State, o: nat, order: seq<nat>): State {
    if o in s.opens then ClientPut(s.(opens := s.opens - {o}), s.opens[o], order) else s
  }

  function VmaClosed(s: State, v: nat, order: seq<nat>): State {
    if v in s.vmas && s.vmas[v] in s.handles then
      ClientPut(HandlePut(s.(vmas := s.vmas - {v}), s.vmas[v]), s.handles[s.vmas[v]].client, order)
    else s
  }

  // ----- what they keep -----

  lemma Cancel(m: multiset<nat>, x: nat)
    ensures m + multiset{x} - multiset{x} == m
  {
  }

  lemma OpenKeeps(s: State, c: nat, o: nat, task: Option<nat>, kernel: set<nat>, dma: set<nat>)
    requires DeviceRefs(s) && o !in s.opens
    requires c !in s.clients && task.Some? ==> NoClientFor(s, task)
    ensures DeviceRefs(Opened(s, c, o, task))
    ensures DeviceMaps(s, kernel, dma) ==> DeviceMaps(Opened(s, c, o, task), kernel, dma)
  {
    hide BuffersCounted, HandlesCounted, ClientsCounted, OneHandlePerBuffer, OneClientPerTask, FreedOnce, MapsCounted;
    Cancel(s.heldC, c);
    if c in s.clients {
      var x := s.clients[c].(ref := s.clients[c].ref + 1);
      ClientGet(s.clients, s.handles, s.vmas, s.opens, s.heldC, c);
      ClientOpenTakes(s.clients[c := x], s.handles, s.vmas, s.opens, s.heldC + multiset{c}, o, c);
      TaskSame(s.clients, c, x);
    } else {
      ClientNew(s.clients, s.handles, s.vmas, s.opens, s.heldC, c, Client(1, task));
      ClientOpenTakes(s.clients[c := Client(1, task)], s.handles, s.vmas, s.opens, s.heldC + multiset{c}, o, c);
      TaskNew(s.clients, c, Client(1, task));
    }
  }

  lemma AllocKeeps(s: State, c: nat, b: nat, h: nat, kernel: set<nat>, dma: set<nat>)
    requires DeviceRefs(s) && c in s.clients && b !in s.born && h !in s.handles
    ensures DeviceRefs(Allocated(s, c, b, h))
    ensures DeviceMaps(s, kernel, dma) ==> DeviceMaps(Allocated(s, c, b, h), kernel, dma)
  {
    hide BuffersCounted, HandlesCounted, ClientsCounted, OneHandlePerBuffer, OneClientPerTask, FreedOnce, MapsCounted;
    AliveAreBorn(s);
    LinksAlive(s);
    var buffers, x := s.buffers[b := Buffer(1, 0, 0)], Handle(1, c, b, 0, 0);
    BufferNew(s.buffers, s.handles, s.files, s.heldB, b);
    BufferHandleNew(buffers, s.handles, s.files, s.heldB + multiset{b}, h, x);
    Cancel(s.heldB, b);
    HandleNew(s.handles, s.taken, s.vmas, s.heldH, h, x);
    HandleUser(s.handles[h := x], s.taken, s.vmas, s.heldH + multiset{h}, h);
    Cancel(s.heldH, h);
    VmaTargetsAlive(s);
    ClientHandlePut(s.clients, s.handles, s.vmas, s.opens, s.heldC, h, x);
    UniqueNew(s.handles, h, x);
    FreedNew(s.buffers, s.born, s.freed, b, Buffer(1, 0, 0));
    if DeviceMaps(s, kernel, dma) {
      NewBufferUnmapped(s.buffers, s.handles, Kernel, kernel, b);
      NewBufferUnmapped(s.buffers, s.handles, Dma, dma, b);
      NewHandleUnmapped(buffers, s.handles, Kernel, kernel, h, c, b);
      NewHandleUnmapped(buffers, s.handles, Dma, dma, h, c, b);
    }
  }

  lemma AllocUndoneKeeps(s: State, b: nat, kernel: set<nat>, dma: set<nat>)
    requires DeviceRefs(s) && b !in s.born
    ensures DeviceRefs(AllocUndone(s, b))
    ensures DeviceMaps(s, kernel, dma) ==> DeviceMaps(AllocUndone(s, b), kernel, dma)
  {
    hide BuffersCounted, HandlesCounted, ClientsCounted, OneHandlePerBuffer, OneClientPerTask, MapsCounted;
  }

  /** A buffer that gets no handle is freed by the one put that follows. */
  lemma NewBufferSteps(s: State, b: nat)
    requires b !in s.buffers
    ensures BufferPut(s.(buffers := s.buffers[b := Buffer(1, 0, 0)], born := s.born + {b}), b) == AllocUndone(s, b)
  {
    assert s.buffers[b := Buffer(1, 0, 0)] - {b} == s.buffers;
  }

  /** ion_handle_create takes a second reference to the buffer and ion_alloc drops the first. */
  lemma NewHandleSteps(s: State, b: nat, c: nat, h: nat)
    ensures var t := NewHandleState(s.(buffers := s.buffers[b := Buffer(1, 0, 0)], born := s.born + {b}), c, b, h);
      var u := BufferPut(t, b);
      b in t.buffers && u.(taken := u.taken + multiset{h}) == Allocated(s, c, b, h)
  {
    assert s.buffers[b := Buffer(1, 0, 0)][b := Buffer(2, 0, 0)][b := Buffer(1, 0, 0)] ==
      s.buffers[b := Buffer(1, 0, 0)];
  }

  lemma PutHandleMaps(s: State, h: nat, m: Mode, live: set<nat>)
    requires RefInv(s) && MapsCounted(s.buffers, s.handles, m, live)
    requires h in s.handles && s.handles[h].buffer in s.buffers
    ensures var t := HandlePut(s, h);
      MapsCounted(t.buffers, t.handles, m, live) <==> (s.handles[h].ref <= 1 ==> HandleCnt(s.handles[h], m) == 0)
  {
    hide MapsCounted, RefInv;
    if s.handles[h].ref <= 1 {
      DestroyKeepsMapsIffUnmapped(s, h, m, live);
    } else {
      HandleKrefKeeps(s.buffers, s.handles, m, live, h, s.handles[h].(ref := s.handles[h].ref - 1));
    }
  }

  /** Giving back a handle reference that a running call holds. */
  lemma DropHeldHandle(s: State, h: nat, kernel: set<nat>, dma: set<nat>)
    requires RefInv(s) && s.heldH == multiset{h} && h in s.handles && s.handles[h].buffer in s.buffers
    ensures var t := HandlePut(s, h).(heldH := multiset{});
      RefInv(t) && (DeviceMaps(s, kernel, dma) ==> (DeviceMaps(t, kernel, dma) <==> MayDrop(s, h)))
  {
    hide RefInv, MapsCounted;
    PutHandleKeeps(s, h);
    assert s.heldH - multiset{h} == multiset{};
    if DeviceMaps(s, kernel, dma) {
      PutHandleMaps(s, h, Kernel, kernel);
      PutHandleMaps(s, h, Dma, dma);
    }
  }

  /**
    References stay exact exactly when a reference that alloc or import handed out is freed, and the map counts
    stay right exactly when no mapped handle is destroyed.
   */
  lemma FreeKeeps(s: State, h: nat, kernel: set<nat>, dma: set<nat>)
    requires DeviceRefs(s) && h in s.handles
    ensures DeviceRefs(Freed(s, h)) <==> h in s.taken
    ensures DeviceMaps(s, kernel, dma) ==> (DeviceMaps(Freed(s, h), kernel, dma) <==> MayDrop(s, h))
  {
    hide BuffersCounted, HandlesCounted, ClientsCounted, OneHandlePerBuffer, OneClientPerTask, FreedOnce, MapsCounted;
    LinksAlive(s);
    if h in s.taken {
      HandleUser(s.handles, s.taken, s.vmas, s.heldH, h);
      var u := s.(taken := s.taken - multiset{h}, heldH := multiset{h});
      assert s.heldH + multiset{h} == multiset{h};
      DropHeldHandle(u, h, kernel, dma);
    } else {
      OverFreed(s.handles, s.taken, s.vmas, h);
      assert s.taken - multiset{h} == s.taken;
      if DeviceMaps(s, kernel, dma) {
        PutHandleMaps(s, h, Kernel, kernel);
        PutHandleMaps(s, h, Dma, dma);
      }
    }
  }

  /**
    A reference nobody took is some user mapping's: giving it back leaves the handle's kref wrong or the link
    dangling.
   */
  lemma OverFreed(handles: map<nat, Handle>, taken: multiset<nat>, vmas: map<nat, nat>, h: nat)
    requires HandlesCounted(handles, taken, vmas, multiset{}) && h in handles && h !in taken
    ensures !HandlesCounted(HandlesPut(handles, h), taken, vmas, multiset{})
  {
    assert |KeysOf(vmas, h)| > 0;
    var v :| v in KeysOf(vmas, h);
  }

  lemma TakenAlive(s: State)
    requires RefInv(s)
    ensures forall h :: h in s.taken ==> h in s.handles
    ensures forall f :: f in s.files ==> s.files[f] in s.buffers
    ensures forall o :: o in s.opens ==> s.opens[o] in s.clients
    ensures forall v :: v in s.vmas ==> s.vmas[v] in s.handles
  {
  }

  /** ion_handle_lookup: h is the client's handle for b, or a new one when it has none. */
  ghost predicate ImportTarget(s: State, c: nat, b: nat, h: nat) {
    if h in s.handles then s.handles[h].client == c && s.handles[h].buffer == b else NoHandleFor(s, c, b)
  }

  /** Import with the new handle reference still held by the call. */
  lemma ImportHeld(s: State, c: nat, b: nat, h: nat, kernel: set<nat>, dma: set<nat>)
    requires RefInv(s) && s.heldB == multiset{} && s.heldH == multiset{}
    requires c in s.clients && b in s.buffers && ImportTarget(s, c, b, h)
    ensures var t := Imported(s, c, b, h).(heldH := multiset{h});
      && RefInv(t) && (DeviceMaps(s, kernel, dma) ==> DeviceMaps(t, kernel, dma))
      && h in t.handles && t.handles[h].client == c && t.handles[h].buffer == b
  {
    hide BuffersCounted, HandlesCounted, ClientsCounted, OneHandlePerBuffer, OneClientPerTask, FreedOnce, MapsCounted;
    LinksAlive(s);
    assert s.heldH + multiset{h} == multiset{h};
    if h in s.handles {
      GetHandleKeeps(s, h);
      var x := s.handles[h].(ref := s.handles[h].ref + 1);
      if DeviceMaps(s, kernel, dma) {
        HandleKrefKeeps(s.buffers, s.handles, Kernel, kernel, h, x);
        HandleKrefKeeps(s.buffers, s.handles, Dma, dma, h, x);
      }
    } else {
      var x := s.buffers[b].(ref := s.buffers[b].ref + 1);
      BufferGet(s.buffers, s.handles, s.files, s.heldB, b);
      FreedSame(s.buffers, s.born, s.freed, b, x);
      var u := s.(buffers := s.buffers[b := x], heldB := s.heldB + multiset{b});
      NewHandleKeeps(u, h, c, b);
      Cancel(s.heldB, b);
      if DeviceMaps(s, kernel, dma) {
        BufferKrefKeeps(s.buffers, s.handles, Kernel, kernel, b, x);
        BufferKrefKeeps(s.buffers, s.handles, Dma, dma, b, x);
        NewHandleUnmapped(u.buffers, s.handles, Kernel, kernel, h, c, b);
        NewHandleUnmapped(u.buffers, s.handles, Dma, dma, h, c, b);
      }
    }
  }

  lemma ImportKeeps(s: State, c: nat, b: nat, h: nat, kernel: set<nat>, dma: set<nat>)
    requires DeviceRefs(s) && c in s.clients && b in s.buffers && ImportTarget(s, c, b, h)
    ensures var t := Imported(s, c, b, h);
      && DeviceRefs(t.(taken := t.taken + multiset{h}))
      && (DeviceMaps(s, kernel, dma) ==> DeviceMaps(t.(taken := t.taken + multiset{h}), kernel, dma))
  {
    hide BuffersCounted, HandlesCounted, ClientsCounted, OneHandlePerBuffer, OneClientPerTask, FreedOnce, MapsCounted;
    ImportHeld(s, c, b, h, kernel, dma);
    var t := Imported(s, c, b, h);
    HandleUser(t.handles, t.taken, t.vmas, multiset{h}, h);
    assert multiset{h} - multiset{h} == multiset{};
  }

  lemma ShareKeeps(s: State, f: nat, b: nat, kernel: set<nat>, dma: set<nat>)
    requires DeviceRefs(s) && b in s.buffers && f !in s.files
    ensures DeviceRefs(Shared(s, f, b))
    ensures DeviceMaps(s, kernel, dma) ==> DeviceMaps(Shared(s, f, b), kernel, dma)
  {
    hide BuffersCounted, HandlesCounted, ClientsCounted, OneHandlePerBuffer, OneClientPerTask, FreedOnce, MapsCounted;
    var x := s.buffers[b].(ref := s.buffers[b].ref + 1);
    BufferGet(s.buffers, s.handles, s.files, s.heldB, b);
    BufferFileTakes(s.buffers[b := x], s.handles, s.files, s.heldB + multiset{b}, f, b);
    Cancel(s.heldB, b);
    FreedSame(s.buffers, s.born, s.freed, b, x);
    if DeviceMaps(s, kernel, dma) {
      BufferKrefKeeps(s.buffers, s.handles, Kernel, kernel, b, x);
      BufferKrefKeeps(s.buffers, s.handles, Dma, dma, b, x);
    }
  }

  lemma ShareReleaseKeeps(s: State, f: nat, kernel: set<nat>, dma: set<nat>)
    requires DeviceRefs(s) && f in s.files
    ensures DeviceRefs(ShareReleased(s, f))
    ensures DeviceMaps(s, kernel, dma) ==> DeviceMaps(ShareReleased(s, f), kernel, dma)
  {
    hide BuffersCounted, HandlesCounted, ClientsCounted, OneHandlePerBuffer, OneClientPerTask, FreedOnce, MapsCounted;
    TakenAlive(s);
    var b := s.files[f];
    BufferFileDrops(s.buffers, s.handles, s.files, s.heldB, f);
    var u := s.(files := s.files - {f}, heldB := s.heldB + multiset{b});
    BufferPutKeeps(u, b);
    Cancel(s.heldB, b);
    if DeviceMaps(s, kernel, dma) {
      if s.buffers[b].ref <= 1 {
        LastPutHasNoHandle(u, b);
        BufferGoneUnmapped(s.buffers, s.handles, Kernel, kernel, b);
        BufferGoneUnmapped(s.buffers, s.handles, Dma, dma, b);
      } else {
        var x := s.buffers[b].(ref := s.buffers[b].ref - 1);
        BufferKrefKeeps(s.buffers, s.handles, Kernel, kernel, b, x);
        BufferKrefKeeps(s.buffers, s.handles, Dma, dma, b, x);
      }
    }
  }

  lemma MmapKeeps(s: State, c: nat, b: nat, h: nat, v: nat, kernel: set<nat>, dma: set<nat>)
    requires DeviceRefs(s) && c in s.clients && b in s.buffers && ImportTarget(s, c, b, h) && v !in s.vmas
    ensures DeviceRefs(Mmapped(s, c, b, h, v))
    ensures DeviceMaps(s, kernel, dma) ==> DeviceMaps(Mmapped(s, c, b, h, v), kernel, dma)
  {
    hide BuffersCounted, HandlesCounted, ClientsCounted, OneHandlePerBuffer, OneClientPerTask, FreedOnce, MapsCounted;
    ClientHeld(s, c, kernel, dma);
    var u := AddRefClient(s, c).(heldC := multiset{c});
    ImportHeld(u, c, b, h, kernel, dma);
    ImportIgnoresHeld(AddRefClient(s, c), c, b, h, multiset{c});
    hide Imported;
    var t := Imported(u, c, b, h);
    HandleVmaTakes(t.handles, t.taken, t.vmas, multiset{h}, v, h);
    ClientVmaTakes(t.clients, t.handles, t.vmas, t.opens, t.heldC, v, h);
    assert multiset{c} - multiset{c} == multiset{} && multiset{h} - multiset{h} == multiset{};
  }

  lemma ClientHeld(s: State, c: nat, kernel: set<nat>, dma: set<nat>)
    requires DeviceRefs(s) && c in s.clients
    ensures var u := AddRefClient(s, c).(heldC := multiset{c});
      RefInv(u) && (DeviceMaps(s, kernel, dma) ==> DeviceMaps(u, kernel, dma))
  {
    hide BuffersCounted, HandlesCounted, ClientsCounted, OneHandlePerBuffer, OneClientPerTask, FreedOnce, MapsCounted;
    ClientGet(s.clients, s.handles, s.vmas, s.opens, s.heldC, c);
    TaskSame(s.clients, c, s.clients[c].(ref := s.clients[c].ref + 1));
    assert s.heldC + multiset{c} == multiset{c};
  }

  lemma ImportIgnoresHeld(s: State, c: nat, b: nat, h: nat, held: multiset<nat>)
    ensures Imported(s.(heldC := held), c, b, h) == Imported(s, c, b, h).(heldC := held)
    ensures Imported(s, c, b, h).heldH == s.heldH && Imported(s, c, b, h).heldB == s.heldB
    ensures Imported(s, c, b, h).heldC == s.heldC
  {
    hide BuffersImported, HandlesImported;
  }

  /** A failed mmap gives its handle reference back: nothing is left of the import. */
  lemma ImportUndone(s: State, c: nat, b: nat, h: nat)
    requires RefInv(s) && c in s.clients && b in s.buffers && ImportTarget(s, c, b, h)
    ensures HandlePut(Imported(s, c, b, h), h) == s
  {
    hide HandlesCounted, BuffersCounted, ClientsCounted, OneHandlePerBuffer, OneClientPerTask, FreedOnce;
    RefsPositive(s);
    var t := Imported(s, c, b, h);
    if h in s.handles {
      assert t.handles[h := s.handles[h]] == s.handles;
    } else {
      assert t.handles - {h} == s.handles;
      assert t.buffers[b := s.buffers[b]] == s.buffers;
    }
  }

  /** A client reference taken for the call changes neither handles nor buffers. */
  lemma TargetsSame(s: State, c: nat, b: nat)
    requires c in s.clients
    ensures var u := AddRefClient(s, c);
      u.buffers == s.buffers && u.handles == s.handles && c in u.clients
        && (NoHandleFor(u, c, b) <==> NoHandleFor(s, c, b))
  {
  }

  lemma TargetsBack(s: State, c: nat, b: nat, h: nat)
    ensures ImportTarget(AddRefClient(s, c), c, b, h) ==> ImportTarget(s, c, b, h)
  {
  }

  lemma MmapSteps(s: State, c: nat, b: nat, h: nat, v: nat)
    ensures var t := Imported(AddRefClient(s, c), c, b, h);
      t.vmas == s.vmas && t.(vmas := s.vmas[v := h]) == Mmapped(s, c, b, h, v)
  {
    ImportFrame(AddRefClient(s, c), c, b, h);
    assert AddRefClient(s, c).vmas == s.vmas;
    hide Imported, AddRefClient;
  }

  lemma ImportFrame(s: State, c: nat, b: nat, h: nat)
    ensures Imported(s, c, b, h).vmas == s.vmas
  {
    hide BuffersImported, HandlesImported;
  }

  lemma HasRefs(s: State)
    requires DeviceRefs(s)
    ensures RefInv(s)
  {
  }

  lemma ImportUndoneLater(s: State, c: nat, b: nat, h: nat)
    requires RefInv(s) && c in s.clients && b in s.buffers && ImportTarget(s, c, b, h)
    ensures var u := AddRefClient(s, c);
      var t := Imported(u, c, b, h);
      HandlePut(t, h) == u && h in t.handles && t.handles[h].buffer in t.buffers
  {
    ImportUndone(s, c, b, h);
  }

  lemma ClientBack(s: State, c: nat)
    requires RefInv(s) && c in s.clients
    ensures var u := AddRefClient(s, c);
      && c in u.clients && OneHandlePerBuffer(u.handles)
      && forall h :: h in u.handles ==> u.handles[h].buffer in u.buffers
  {
    hide OneHandlePerBuffer;
  }

  /** Taking a client reference and putting it back changes nothing. */
  lemma ClientPutBack(s: State, c: nat, order: seq<nat>)
    requires RefInv(s) && c in s.clients
    ensures ClientPut(AddRefClient(s, c), c, order) == s
  {
    RefsPositive(s);
    CountedBack(s.clients, c);
    hide RefInv, HandlesDestroyed;
  }

  lemma CountedBack(clients: map<nat, Client>, c: nat)
    requires c in clients
    ensures var up := clients[c := clients[c].(ref := clients[c].ref + 1)];
      up[c := up[c].(ref := up[c].ref - 1)] == clients
  {
  }

  /** `order` lists the handles of client c, each once. */
  ghost predicate HandleOrder(s: State, c: nat, order: seq<nat>) {
    && (forall h :: h in order <==> h in s.handles && s.handles[h].client == c)
    && (forall i, j :: 0 <= i < j < |order| ==> order[i] != order[j])
  }

  /** `order` is what putting client c visits, if it is the last reference. */
  ghost predicate OrderedIfLast(s: State, c: nat, order: seq<nat>) {
    c in s.clients && s.clients[c].ref <= 1 ==> HandleOrder(s, c, order)
  }

  /** If client c goes, none of its handles is still mapped. */
  ghost predicate MayLose(s: State, c: nat) {
    c in s.clients && s.clients[c].ref <= 1 ==> forall h :: h in s.handles && s.handles[h].client == c ==>
      Unmapped(s, h)
  }

  ghost predicate Doomed(s: State, c: nat, order: seq<nat>) {
    && c in s.clients && s.clients[c].ref == 1
    && (forall h :: h in order ==> h in s.handles && s.handles[h].client == c)
    && (forall i, j :: 0 <= i < j < |order| ==> order[i] != order[j])
  }

  // ----- what the kref operations do not look at or touch -----

  lemma HandleDestroyIgnoresHeld(s: State, h: nat, heldH: multiset<nat>, heldC: multiset<nat>)
    ensures HandleDestroy(s.(heldH := heldH, heldC := heldC), h) == HandleDestroy(s, h).(heldH := heldH, heldC := heldC)
  {
    hide BuffersPut, FreesPut;
  }

  lemma HandlePutIgnoresHeld(s: State, h: nat, heldH: multiset<nat>, heldC: multiset<nat>)
    ensures HandlePut(s.(heldH := heldH, heldC := heldC), h) == HandlePut(s, h).(heldH := heldH, heldC := heldC)
  {
    hide HandleDestroy, HandlesPut;
    if h in s.handles && s.handles[h].ref <= 1 {
      HandleDestroyIgnoresHeld(s, h, heldH, heldC);
    }
  }

  ghost predicate SameFrame(s: State, t: State) {
    && t.clients == s.clients && t.vmas == s.vmas && t.opens == s.opens && t.files == s.files
    && t.heldB == s.heldB && t.heldH == s.heldH && t.heldC == s.heldC && t.taken == s.taken
  }

  lemma HandleDestroyFrame(s: State, h: nat)
    ensures SameFrame(s, HandleDestroy(s, h)) && HandleDestroy(s, h).handles == s.handles - {h}
  {
    hide BuffersPut, FreesPut;
    if h !in s.handles {
      assert s.handles - {h} == s.handles;
    }
  }

  /** Putting a handle changes neither clients nor user mappings. */
  lemma HandlePutFrame(s: State, h: nat)
    ensures SameFrame(s, HandlePut(s, h))
  {
    hide HandleDestroy;
    HandleDestroyFrame(s, h);
  }

  /** Objects only go, and what stays keeps its links and map counts. */
  ghost predicate Shrunk(s: State, t: State) {
    && (forall k :: k in t.handles ==> k in s.handles && t.handles[k] == s.handles[k])
    && (forall b :: b in t.buffers ==>
      b in s.buffers && t.buffers[b].kmap == s.buffers[b].kmap && t.buffers[b].dmap == s.buffers[b].dmap)
  }

  lemma HandleDestroyShrinks(s: State, t: State, h: nat, taken: multiset<nat>)
    requires Shrunk(s, t)
    ensures Shrunk(s, HandleDestroy(t, h).(taken := taken))
  {
    HandleDestroyFrame(t, h);
  }

  /** A mapped handle that is gone leaves the map counts of its buffer wrong for good. */
  lemma LostMapper(s: State, t: State, h: nat, m: Mode, live: set<nat>)
    requires MapsCounted(s.buffers, s.handles, m, live) && Shrunk(s, t)
    requires h in s.handles && s.handles[h].buffer in s.buffers && HandleCnt(s.handles[h], m) > 0 && h !in t.handles
    ensures !MapsCounted(t.buffers, t.handles, m, live)
  {
    var b := s.handles[h].buffer;
    MappedHandleMeansMappedBuffer(s.buffers, s.handles, m, live, h);
    if b in t.buffers {
      var was, now := Mappers(s.handles, b, m), Mappers(t.handles, b, m);
      assert h in was && now <= was - {h};
      SmallerSet(now, was - {h});
    }
  }

  lemma {:induction false} SmallerSet(a: set<nat>, b: set<nat>)
    requires a <= b
    ensures |a| <= |b|
  {
    if a != {} {
      var x :| x in a;
      SmallerSet(a - {x}, b - {x});
    }
  }

  lemma {:induction false} DestroyingKeeps(s: State, c: nat, order: seq<nat>)
    requires RefInv(s) && s.heldC == multiset{c} && s.heldB == multiset{} && s.heldH == multiset{}
    requires Doomed(s, c, order)
    ensures var t := HandlesDestroyed(s, order);
      && RefInv(t) && Shrunk(s, t)
      && t.clients == s.clients && t.heldC == s.heldC && t.heldB == s.heldB && t.heldH == s.heldH
      && (forall h :: h in t.handles <==> h in s.handles && h !in order)
  {
    hide RefInv, HandleDestroy;
    if order != [] {
      var n := |order| - 1;
      var h, t := order[n], HandlesDestroyed(s, order[..n]);
      DoomedLast(s, c, order);
      DestroyingKeeps(s, c, order[..n]);
      hide Doomed, HandlesDestroyed;
      assert h in t.handles && t.handles[h] == s.handles[h];
      DestroyingNext(s, t, c, h);
    }
  }

  /** One more handle of the dying client goes. */
  lemma DestroyingNext(s: State, t: State, c: nat, h: nat)
    requires RefInv(t) && Shrunk(s, t) && t.heldC == multiset{c} && t.heldH == multiset{}
    requires h in t.handles && t.handles[h].client == c && c in t.clients && t.clients[c].ref == 1
    ensures var u := HandleDestroy(t, h).(taken := t.taken[h := 0]);
      && RefInv(u) && Shrunk(s, u) && SameFrame(t, HandleDestroy(t, h)) && u.handles == t.handles - {h}
  {
    LinksAlive(t);
    hide RefInv, HandleDestroy, Shrunk;
    HandleDestroyFrame(t, h);
    HandleDestroyShrinks(s, t, h, t.taken[h := 0]);
    DestroyHandleOfKeeps(t, h);
  }

  lemma DoomedLast(s: State, c: nat, order: seq<nat>)
    requires Doomed(s, c, order) && order != []
    ensures var n := |order| - 1;
      && Doomed(s, c, order[..n]) && order[n] !in order[..n] && order[n] in s.handles && s.handles[order[n]].client == c
      && (forall h :: h in order <==> h in order[..n] || h == order[n])
  {
    assert order == order[..|order| - 1] + [order[|order| - 1]];
  }

  lemma {:induction false} DestroyingUnmapped(s: State, c: nat, order: seq<nat>, kernel: set<nat>, dma: set<nat>)
    requires RefInv(s) && s.heldC == multiset{c} && s.heldB == multiset{} && s.heldH == multiset{}
    requires Doomed(s, c, order) && DeviceMaps(s, kernel, dma) && forall h :: h in order ==> Unmapped(s, h)
    ensures DeviceMaps(HandlesDestroyed(s, order), kernel, dma)
  {
    hide RefInv, MapsCounted;
    if order != [] {
      var n := |order| - 1;
      var h, t := order[n], HandlesDestroyed(s, order[..n]);
      assert Doomed(s, c, order[..n]);
      DestroyingKeeps(s, c, order[..n]);
      DestroyingUnmapped(s, c, order[..n], kernel, dma);
      assert h !in order[..n] && Unmapped(s, h) && t.handles[h] == s.handles[h];
      LinksAlive(t);
      hide HandleDestroy;
      DestroyKeepsMapsIffUnmapped(t, h, Kernel, kernel);
      DestroyKeepsMapsIffUnmapped(t, h, Dma, dma);
    }
  }

  /** A dying client leaves the map counts right exactly when none of its handles is mapped. */
  lemma DestroyingMaps(s: State, c: nat, order: seq<nat>, kernel: set<nat>, dma: set<nat>)
    requires RefInv(s) && s.heldC == multiset{c} && s.heldB == multiset{} && s.heldH == multiset{}
    requires Doomed(s, c, order) && DeviceMaps(s, kernel, dma)
    ensures DeviceMaps(HandlesDestroyed(s, order), kernel, dma) <==> forall h :: h in order ==> Unmapped(s, h)
  {
    hide RefInv, MapsCounted, HandlesDestroyed, Shrunk;
    if forall h :: h in order ==> Unmapped(s, h) {
      DestroyingUnmapped(s, c, order, kernel, dma);
    } else {
      var h :| h in order && !Unmapped(s, h);
      DestroyingKeeps(s, c, order);
      LinksAlive(s);
      LostMapping(s, HandlesDestroyed(s, order), h, kernel, dma);
    }
  }

  lemma LostMapping(s: State, t: State, h: nat, kernel: set<nat>, dma: set<nat>)
    requires DeviceMaps(s, kernel, dma) && Shrunk(s, t)
    requires h in s.handles && s.handles[h].buffer in s.buffers && !Unmapped(s, h) && h !in t.handles
    ensures !DeviceMaps(t, kernel, dma)
  {
    hide MapsCounted, Shrunk;
    if s.handles[h].kmap > 0 {
      LostMapper(s, t, h, Kernel, kernel);
    } else {
      LostMapper(s, t, h, Dma, dma);
    }
  }

  /** Giving back a client reference that the call holds. */
  lemma ClientPutKeeps(s: State, c: nat, order: seq<nat>, kernel: set<nat>, dma: set<nat>)
    requires RefInv(s) && s.heldC == multiset{c} && s.heldB == multiset{} && s.heldH == multiset{}
    requires c in s.clients && OrderedIfLast(s, c, order)
    ensures DeviceRefs(ClientPut(s, c, order).(heldC := multiset{}))
    ensures DeviceMaps(s, kernel, dma) ==> (DeviceMaps(ClientPut(s, c, order), kernel, dma) <==> MayLose(s, c))
    ensures Shrunk(s, ClientPut(s, c, order))
  {
    hide BuffersCounted, HandlesCounted, ClientsCounted, OneHandlePerBuffer, OneClientPerTask, FreedOnce, MapsCounted;
    RefsPositive(s);
    assert s.heldC - multiset{c} == multiset{};
    if s.clients[c].ref > 1 {
      ClientPutDown(s.clients, s.handles, s.vmas, s.opens, s.heldC, c);
      TaskSame(s.clients, c, s.clients[c].(ref := s.clients[c].ref - 1));
    } else {
      LastClientPut(s, c, order, kernel, dma);
    }
  }

  lemma LastClientPut(s: State, c: nat, order: seq<nat>, kernel: set<nat>, dma: set<nat>)
    requires RefInv(s) && s.heldC == multiset{c} && s.heldB == multiset{} && s.heldH == multiset{}
    requires c in s.clients && s.clients[c].ref == 1 && HandleOrder(s, c, order)
    ensures DeviceRefs(ClientPut(s, c, order).(heldC := multiset{}))
    ensures DeviceMaps(s, kernel, dma) ==> (DeviceMaps(ClientPut(s, c, order), kernel, dma) <==> MayLose(s, c))
    ensures Shrunk(s, ClientPut(s, c, order))
  {
    hide BuffersCounted, HandlesCounted, ClientsCounted, OneHandlePerBuffer, OneClientPerTask, FreedOnce, MapsCounted;
    hide HandlesDestroyed;
    DestroyingKeeps(s, c, order);
    var t := HandlesDestroyed(s, order);
    assert s.heldC - multiset{c} == multiset{};
    ClientDrop(t.clients, t.handles, t.vmas, t.opens, t.heldC, c);
    TaskWithout(t.clients, c);
    if DeviceMaps(s, kernel, dma) {
      DestroyingMaps(s, c, order, kernel, dma);
    }
  }

  lemma ReleaseKeeps(s: State, o: nat, order: seq<nat>, kernel: set<nat>, dma: set<nat>)
    requires DeviceRefs(s) && o in s.opens && OrderedIfLast(s, s.opens[o], order)
    ensures DeviceRefs(Released(s, o, order))
    ensures DeviceMaps(s, kernel, dma) ==> (DeviceMaps(Released(s, o, order), kernel, dma) <==> MayLose(s, s.opens[o]))
  {
    hide BuffersCounted, HandlesCounted, ClientsCounted, OneHandlePerBuffer, OneClientPerTask, FreedOnce, MapsCounted;
    TakenAlive(s);
    var c := s.opens[o];
    ClientOpenDrops(s.clients, s.handles, s.vmas, s.opens, s.heldC, o);
    assert s.heldC + multiset{c} == multiset{c};
    var u := s.(opens := s.opens - {o}, heldC := multiset{c});
    ClientPutKeeps(u, c, order, kernel, dma);
    PutIgnoresHeld(s.(opens := s.opens - {o}), c, order);
    hide ClientPut;
    assert ClientPut(u, c, order).(heldC := multiset{}) == Released(s, o, order);
  }

  lemma {:induction false} DestroyIgnoresHeld(s: State, held: multiset<nat>, order: seq<nat>)
    ensures HandlesDestroyed(s.(heldC := held), order) == HandlesDestroyed(s, order).(heldC := held)
  {
    hide BuffersPut, FreesPut;
    if order != [] {
      DestroyIgnoresHeld(s, held, order[..|order| - 1]);
    }
  }

  /** What ClientPut does is independent of the ledger of references held by calls. */
  lemma PutIgnoresHeld(s: State, c: nat, order: seq<nat>)
    requires s.heldC == multiset{}
    ensures ClientPut(s.(heldC := multiset{c}), c, order).(heldC := multiset{}) == ClientPut(s, c, order)
  {
    hide HandlesDestroyed;
    DestroyIgnoresHeld(s, multiset{c}, order);
    DestroyIgnoresHeld(s, multiset{}, order);
    assert s.(heldC := multiset{}) == s;
  }

  /** ion_vma_close before its two puts: both references of the mapping are held by the call. */
  function VmaTakenOver(s: State, v: nat): State {
    if v in s.vmas && s.vmas[v] in s.handles then
      s.(vmas := s.vmas - {v}, heldH := multiset{s.vmas[v]}, heldC := multiset{s.handles[s.vmas[v]].client})
    else s
  }

  lemma VmaTakenOverKeeps(s: State, v: nat)
    requires DeviceRefs(s) && v in s.vmas
    ensures s.vmas[v] in s.handles && s.handles[s.vmas[v]].buffer in s.buffers
    ensures s.handles[s.vmas[v]].client in s.clients
    ensures RefInv(VmaTakenOver(s, v))
  {
    hide BuffersCounted, HandlesCounted, ClientsCounted, OneHandlePerBuffer, OneClientPerTask, FreedOnce;
    TakenAlive(s);
    LinksAlive(s);
    var h := s.vmas[v];
    var c := s.handles[h].client;
    HandleVmaDrops(s.handles, s.taken, s.vmas, s.heldH, v);
    ClientVmaDrops(s.clients, s.handles, s.vmas, s.opens, s.heldC, v);
    assert s.heldH + multiset{h} == multiset{h} && s.heldC + multiset{c} == multiset{c};
  }

  /** Between the two puts of ion_vma_close every link still leads to a live object. */
  lemma VmaHandlePutKeeps(s: State, v: nat)
    requires DeviceRefs(s) && v in s.vmas
    ensures s.vmas[v] in s.handles && s.handles[s.vmas[v]].buffer in s.buffers
    ensures s.handles[s.vmas[v]].client in s.clients
    ensures var t := HandlePut(s.(vmas := s.vmas - {v}), s.vmas[v]);
      && t.clients == s.clients && OneHandlePerBuffer(t.handles)
      && forall h :: h in t.handles ==> t.handles[h].buffer in t.buffers
  {
    VmaTakenOverKeeps(s, v);
    hide BuffersCounted, HandlesCounted, ClientsCounted, OneHandlePerBuffer, OneClientPerTask, FreedOnce, MapsCounted;
    var h, u := s.vmas[v], VmaTakenOver(s, v);
    DropHeldHandle(u, h, {}, {});
    hide HandlePut;
    HandlePutIgnoresHeld(s.(vmas := s.vmas - {v}), h, u.heldH, u.heldC);
    HandlePutFrame(s.(vmas := s.vmas - {v}), h);
    LinksAlive(HandlePut(u, h).(heldH := multiset{}));
  }

  /** The device between the two puts, with the client reference still held. */
  function VmaHandlePut(s: State, v: nat): State {
    if v in s.vmas && s.vmas[v] in s.handles then HandlePut(VmaTakenOver(s, v), s.vmas[v]).(heldH := multiset{}) else s
  }

  lemma VmaClosedIs(s: State, v: nat, order: seq<nat>)
    requires Idle(s) && v in s.vmas && s.vmas[v] in s.handles
    ensures var w, c := VmaHandlePut(s, v), s.handles[s.vmas[v]].client;
      && w.heldC == multiset{c} && w.heldB == multiset{} && w.heldH == multiset{} && w.clients == s.clients
      && ClientPut(w, c, order).(heldC := multiset{}) == VmaClosed(s, v, order)
      && w.handles == HandlesPut(s.handles, s.vmas[v])
      && w.handles == HandlePut(s.(vmas := s.vmas - {v}), s.vmas[v]).handles
  {
    hide BuffersPut, FreesPut, ClientPut;
    var h, c, base := s.vmas[v], s.handles[s.vmas[v]].client, HandlePut(s.(vmas := s.vmas - {v}), s.vmas[v]);
    HandlePutIgnoresHeld(s.(vmas := s.vmas - {v}), h, multiset{h}, multiset{c});
    HandlePutFrame(s.(vmas := s.vmas - {v}), h);
    PutIgnoresHeld(base, c, order);
  }

  lemma VmaOrderSame(s: State, v: nat, order: seq<nat>)
    requires Idle(s) && v in s.vmas && s.vmas[v] in s.handles
    requires OrderedIfLast(HandlePut(s.(vmas := s.vmas - {v}), s.vmas[v]), s.handles[s.vmas[v]].client, order)
    ensures OrderedIfLast(VmaHandlePut(s, v), s.handles[s.vmas[v]].client, order)
  {
    VmaClosedIs(s, v, order);
    HandlePutFrame(s.(vmas := s.vmas - {v}), s.vmas[v]);
    hide HandlePut, VmaHandlePut;
  }

  lemma VmaMidwayRefs(s: State, v: nat, kernel: set<nat>, dma: set<nat>)
    requires DeviceRefs(s) && v in s.vmas && s.vmas[v] in s.handles
    ensures s.handles[s.vmas[v]].client in s.clients && RefInv(VmaHandlePut(s, v))
    ensures DeviceMaps(s, kernel, dma) && MayDrop(s, s.vmas[v]) ==> DeviceMaps(VmaHandlePut(s, v), kernel, dma)
  {
    VmaTakenOverKeeps(s, v);
    var u, h := VmaTakenOver(s, v), s.vmas[v];
    assert u.handles == s.handles && u.buffers == s.buffers && u.heldH == multiset{h} && MayDrop(u, h) == MayDrop(s, h);
    assert VmaHandlePut(s, v) == HandlePut(u, h).(heldH := multiset{});
    hide RefInv, MapsCounted, HandlePut, VmaTakenOver, VmaHandlePut, MayDrop;
    DropHeldHandle(u, h, kernel, dma);
  }

  lemma VmaCloseKeeps(s: State, v: nat, order: seq<nat>, kernel: set<nat>, dma: set<nat>)
    requires DeviceRefs(s) && v in s.vmas && s.vmas[v] in s.handles
    requires OrderedIfLast(HandlePut(s.(vmas := s.vmas - {v}), s.vmas[v]), s.handles[s.vmas[v]].client, order)
    ensures DeviceRefs(VmaClosed(s, v, order))
    ensures DeviceMaps(s, kernel, dma) ==>
      (DeviceMaps(VmaClosed(s, v, order), kernel, dma) <==>
        MayDrop(s, s.vmas[v]) && MayLose(s, s.handles[s.vmas[v]].client))
  {
    assert Idle(s);
    hide Idle, RefInv, MapsCounted, HandlePut, HandlesPut, ClientPut, VmaClosed, VmaHandlePut, OrderedIfLast;
    hide Shrunk, MayLose, MayDrop;
    var h, c, w := s.vmas[v], s.handles[s.vmas[v]].client, VmaHandlePut(s, v);
    VmaMidwayRefs(s, v, kernel, dma);
    VmaOrderSame(s, v, order);
    VmaClosedIs(s, v, order);
    ClientPutKeeps(w, c, order, kernel, dma);
    if DeviceMaps(s, kernel, dma) {
      if MayDrop(s, h) {
        SameLoss(s, w, h, c);
      } else {
        HandleDestroyedMapped(s, v, order, kernel, dma);
      }
    }
  }

  /** With an unmapped handle gone, or none, the client may go under the same condition as before. */
  lemma SameLoss(s: State, w: State, h: nat, c: nat)
    requires h in s.handles && w.clients == s.clients && w.handles == HandlesPut(s.handles, h) && MayDrop(s, h)
    ensures MayLose(w, c) <==> MayLose(s, c)
  {
    if MayLose(w, c) && c in s.clients && s.clients[c].ref <= 1 {
      forall k | k in s.handles && s.handles[k].client == c
        ensures Unmapped(s, k)
      {
        assert k in w.handles ==> Unmapped(w, k);
      }
    }
  }

  lemma HandleDestroyedMapped(s: State, v: nat, order: seq<nat>, kernel: set<nat>, dma: set<nat>)
    requires DeviceRefs(s) && DeviceMaps(s, kernel, dma) && v in s.vmas
    requires s.vmas[v] in s.handles && !MayDrop(s, s.vmas[v])
    requires OrderedIfLast(HandlePut(s.(vmas := s.vmas - {v}), s.vmas[v]), s.handles[s.vmas[v]].client, order)
    ensures !DeviceMaps(VmaClosed(s, v, order), kernel, dma)
  {
    var h, u, w := s.vmas[v], VmaTakenOver(s, v), VmaHandlePut(s, v);
    var c := s.handles[h].client;
    assert u.handles == s.handles && u.buffers == s.buffers && w == HandlePut(u, h).(heldH := multiset{}) && Idle(s);
    VmaTakenOverKeeps(s, v);
    hide Idle, RefInv, DeviceMaps, ClientPut, VmaClosed, HandlePut, HandlesPut, VmaTakenOver, VmaHandlePut;
    hide OrderedIfLast, Shrunk;
    LastPutShrinks(u, h, multiset{});
    VmaMidwayRefs(s, v, kernel, dma);
    VmaOrderSame(s, v, order);
    VmaClosedIs(s, v, order);
    ClientPutKeeps(w, c, order, kernel, dma);
    ShrunkOn(s, u, w, ClientPut(w, c, order), VmaClosed(s, v, order), h);
    LostMapping(s, VmaClosed(s, v, order), h, kernel, dma);
  }

  lemma LastPutShrinks(s: State, h: nat, held: multiset<nat>)
    requires h in s.handles && s.handles[h].ref <= 1
    ensures var t := HandlePut(s, h).(heldH := held); Shrunk(s, t) && h !in t.handles
  {
    HandleDestroyShrinks(s, s, h, s.taken);
    HandleDestroyFrame(s, h);
  }

  lemma ShrunkOn(s: State, u: State, w: State, x: State, y: State, h: nat)
    requires u.handles == s.handles && u.buffers == s.buffers && Shrunk(u, w) && Shrunk(w, x) && h !in w.handles
    requires y.handles == x.handles && y.buffers == x.buffers
    ensures Shrunk(s, y) && h !in y.handles
  {
  }

  /** A map keeps the krefs, and the map counts if they were right. */
  lemma MapCallKeeps(s: State, h: nat, m: Mode, kernel: set<nat>, dma: set<nat>)
    requires DeviceRefs(s) && h in s.handles && s.handles[h].buffer in s.buffers
    ensures DeviceRefs(MapCounted(s, h, m))
    ensures DeviceMaps(s, kernel, dma) ==>
      var b := s.handles[h].buffer;
      DeviceMaps(MapCounted(s, h, m), if m.Kernel? then kernel + {b} else kernel, if m.Dma? then dma + {b} else dma)
  {
    hide RefInv, MapsCounted;
    var t := MapCounted(s, h, m);
    RecountKeeps(s, h, s.handles[h].buffer, t.buffers[s.handles[h].buffer], t.handles[h]);
    if DeviceMaps(s, kernel, dma) {
      if m.Kernel? {
        MapKeeps(s.buffers, s.handles, Kernel, kernel, h);
        OtherModeMap(s, h, Dma, Kernel, dma);
      } else {
        MapKeeps(s.buffers, s.handles, Dma, dma, h);
        OtherModeMap(s, h, Kernel, Dma, kernel);
      }
    }
  }

  /** So does an unmap. */
  lemma UnmapCallKeeps(s: State, h: nat, m: Mode, kernel: set<nat>, dma: set<nat>)
    requires DeviceRefs(s) && h in s.handles && s.handles[h].buffer in s.buffers && HandleCnt(s.handles[h], m) > 0
    requires HandleCnt(s.handles[h], m) == 1 ==> BufferCnt(s.buffers[s.handles[h].buffer], m) > 0
    ensures DeviceRefs(UnmapCounted(s, h, m))
    ensures DeviceMaps(s, kernel, dma) ==>
      var t := UnmapCounted(s, h, m);
      var gone := if BufferCnt(t.buffers[s.handles[h].buffer], m) == 0 then {s.handles[h].buffer} else {};
      DeviceMaps(t, if m.Kernel? then kernel - gone else kernel, if m.Dma? then dma - gone else dma)
  {
    hide RefInv, MapsCounted;
    var b, t := s.handles[h].buffer, UnmapCounted(s, h, m);
    RecountKeeps(s, h, b, t.buffers[b], t.handles[h]);
    if DeviceMaps(s, kernel, dma) {
      MappedHandleMeansMappedBuffer(s.buffers, s.handles, m, if m.Kernel? then kernel else dma, h);
      if m.Kernel? {
        UnmapKeeps(s.buffers, s.handles, Kernel, kernel, h);
        OtherModeUnmap(s, h, Dma, Kernel, dma);
        assert kernel - {} == kernel;
      } else {
        UnmapKeeps(s.buffers, s.handles, Dma, dma, h);
        OtherModeUnmap(s, h, Kernel, Dma, kernel);
        assert dma - {} == dma;
      }
    }
  }

  /** _ion_unmap up to its second BUG_ON: the handle's count has gone down, the buffer's has not. */
  function HalfUnmapped(s: State, h: nat, m: Mode): State {
    if h in s.handles then s.(handles := s.handles[h := WithHandleCnt(s.handles[h], m, 0)]) else s
  }

  lemma HalfUnmapKeeps(s: State, h: nat, m: Mode)
    requires DeviceRefs(s) && h in s.handles && s.handles[h].buffer in s.buffers
    ensures DeviceRefs(HalfUnmapped(s, h, m))
  {
    hide RefInv;
    var b := s.handles[h].buffer;
    RecountKeeps(s, h, b, s.buffers[b], WithHandleCnt(s.handles[h], m, 0));
    assert s.buffers[b := s.buffers[b]] == s.buffers;
  }

  /** A map call whose heap operation fails undoes its counting exactly. */
  lemma UnmapUndoesMap(s: State, h: nat, m: Mode)
    requires h in s.handles && s.handles[h].buffer in s.buffers
    requires HandleCnt(s.handles[h], m) != 0 ==> BufferCnt(s.buffers[s.handles[h].buffer], m) != 0
    ensures UnmapCounted(MapCounted(s, h, m), h, m) == s
  {
    var b, t := s.handles[h].buffer, MapCounted(s, h, m);
    assert t.buffers[b := s.buffers[b]] == s.buffers;
    assert t.handles[h := s.handles[h]] == s.handles;
  }
}
