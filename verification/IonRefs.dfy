/**
  The reference counts of modules/ion/gpu/ion.c. Buffers, handles and clients each carry a kref; the ledger
  beside them says who holds the references: open device files, share files, user mappings, references
  returned by alloc and import, and references a running call holds for the moment.
 */
module IonRefs {
  import opened Options

  datatype Buffer = Buffer(ref: nat, kmap: nat, dmap: nat)
  datatype Handle = Handle(ref: nat, client: nat, buffer: nat, kmap: nat, dmap: nat)
  datatype Client = Client(ref: nat, task: Option<nat>)

  datatype Mode = Kernel | Dma

  function BufferCnt(b: Buffer, m: Mode): nat {
    if m.Kernel? then b.kmap else b.dmap
  }

  function HandleCnt(h: Handle, m: Mode): nat {
    if m.Kernel? then h.kmap else h.dmap
  }

  function WithBufferCnt(b: Buffer, m: Mode, n: nat): Buffer {
    if m.Kernel? then b.(kmap := n) else b.(dmap := n)
  }

  function WithHandleCnt(h: Handle, m: Mode, n: nat): Handle {
    if m.Kernel? then h.(kmap := n) else h.(dmap := n)
  }

  datatype State = State(
    // the objects
    buffers: map<nat, Buffer>,
    handles: map<nat, Handle>,
    clients: map<nat, Client>,
    // the ledger: who holds what
    files: map<nat, nat>,     // open share file -> buffer
    vmas: map<nat, nat>,      // user mapping -> handle
    opens: map<nat, nat>,     // open device file or kernel user -> client
    taken: multiset<nat>,     // handles, once per reference returned by alloc or import
    heldB: multiset<nat>,     // references held by a call in progress
    heldH: multiset<nat>,
    heldC: multiset<nat>,
    // buffers ever created, and the frees performed
    born: set<nat>,
    freed: multiset<nat>)

  ghost function KeysOf(m: map<nat, nat>, x: nat): set<nat> {
    set k | k in m && m[k] == x
  }

  ghost function HandlesOf(handles: map<nat, Handle>, b: nat): set<nat> {
    set h | h in handles && handles[h].buffer == b
  }

  ghost function VmasOf(handles: map<nat, Handle>, vmas: map<nat, nat>, c: nat): set<nat> {
    set v | v in vmas && vmas[v] in handles && handles[vmas[v]].client == c
  }

  /** A buffer's kref is its handles, its open share files and what running calls hold; no link to it dangles. */
  ghost predicate BuffersCounted(buffers: map<nat, Buffer>, handles: map<nat, Handle>, files: map<nat, nat>,
                                 held: multiset<nat>) {
    && (forall b :: b in buffers ==>
          buffers[b].ref == |HandlesOf(handles, b)| + |KeysOf(files, b)| + held[b] > 0)
    && (forall h :: h in handles ==> handles[h].buffer in buffers)
    && (forall f :: f in files ==> files[f] in buffers)
    && (forall b :: b in held ==> b in buffers)
  }

  /** A handle's kref is the references of its users, its user mappings and what running calls hold. */
  ghost predicate HandlesCounted(handles: map<nat, Handle>, taken: multiset<nat>, vmas: map<nat, nat>,
                                 held: multiset<nat>) {
    && (forall h :: h in handles ==> handles[h].ref == taken[h] + |KeysOf(vmas, h)| + held[h] > 0)
    && (forall h :: h in taken ==> h in handles)
    && (forall v :: v in vmas ==> vmas[v] in handles)
    && (forall h :: h in held ==> h in handles)
  }

  /** A client's kref is its open files, the user mappings of its handles and what running calls hold. */
  ghost predicate ClientsCounted(clients: map<nat, Client>, handles: map<nat, Handle>, vmas: map<nat, nat>,
                                 opens: map<nat, nat>, held: multiset<nat>) {
    && (forall c :: c in clients ==>
          clients[c].ref == |KeysOf(opens, c)| + |VmasOf(handles, vmas, c)| + held[c] > 0)
    && (forall h :: h in handles ==> handles[h].client in clients)
    && (forall o :: o in opens ==> opens[o] in clients)
    && (forall c :: c in held ==> c in clients)
  }

  /** A client has at most one handle per buffer. */
  ghost predicate OneHandlePerBuffer(handles: map<nat, Handle>) {
    forall h, k :: h in handles && k in handles && handles[h].client == handles[k].client
      && handles[h].buffer == handles[k].buffer
      ==> h == k
  }

  /** A task has at most one client. */
  ghost predicate OneClientPerTask(clients: map<nat, Client>) {
    forall c, d :: c in clients && d in clients && clients[c].task.Some? && clients[c].task == clients[d].task ==>
      c == d
  }

  /** Every buffer ever created is alive and unfreed, or gone and freed exactly once. */
  ghost predicate FreedOnce(buffers: map<nat, Buffer>, born: set<nat>, freed: multiset<nat>) {
    && (forall b :: b in buffers ==> b in born)
    && (forall b :: freed[b] == if b in born && b !in buffers then 1 else 0)
  }

  ghost predicate RefInv(s: State) {
    && BuffersCounted(s.buffers, s.handles, s.files, s.heldB)
    && HandlesCounted(s.handles, s.taken, s.vmas, s.heldH)
    && ClientsCounted(s.clients, s.handles, s.vmas, s.opens, s.heldC)
    && OneHandlePerBuffer(s.handles)
    && OneClientPerTask(s.clients)
    && FreedOnce(s.buffers, s.born, s.freed)
  }

  // ----- the elementary steps -----

  datatype Step =
    | NewBuffer(b: nat)
    | GetBuffer(b: nat)
    | PutBuffer(b: nat)
    | FileTakes(f: nat, b: nat)      // a share file takes over a held buffer reference
    | FileDrops(f: nat)              // and gives it back on release
    | NewHandle(h: nat, c: nat, b: nat)
    | GetHandle(h: nat)
    | PutHandle(h: nat)
    | UserTakes(h: nat)              // the caller of alloc or import takes over a held handle reference
    | UserDrops(h: nat)              // and gives it back in ion_free
    | VmaTakes(v: nat, h: nat)       // a user mapping takes over a held handle and a held client reference
    | VmaDrops(v: nat)
    | NewClient(c: nat, task: Option<nat>)  // the search for the task's client and the insertion of a new one
    | GetClient(c: nat)
    | PutClient(c: nat)              // not the last reference
    | DestroyHandleOf(h: nat)        // ion_handle_destroy whatever h's count: its client's last reference is going
    | DropClient(c: nat)             // and then the client itself
    | OpenTakes(o: nat, c: nat)
    | OpenDrops(o: nat)
    | CountMap(h: nat, m: Mode)      // _ion_map
    | CountUnmap(h: nat, m: Mode)    // _ion_unmap
    | FailMap(h: nat, m: Mode)       // a first map that the heap fails: both counts go up and, still locked, down again

  ghost predicate NoHandleFor(s: State, c: nat, b: nat) {
    forall h :: h in s.handles ==> !(s.handles[h].client == c && s.handles[h].buffer == b)
  }

  ghost predicate NoClientFor(s: State, task: Option<nat>) {
    forall c :: c in s.clients ==> s.clients[c].task != task
  }

  ghost predicate NoHandleOf(s: State, c: nat) {
    forall h :: h in s.handles ==> s.handles[h].client != c
  }

  /** When a call may take the step: it holds what it gives away, and fresh identifiers are fresh. */
  ghost predicate Enabled(s: State, p: Step) {
    match p
    case NewBuffer(b) => b !in s.born
    case GetBuffer(b) => b in s.buffers
    case PutBuffer(b) => b in s.heldB && b in s.buffers
    case FileTakes(f, b) => b in s.heldB && f !in s.files
    case FileDrops(f) => f in s.files
    case NewHandle(h, c, b) => h !in s.handles && c in s.clients && b in s.heldB && NoHandleFor(s, c, b)
    case GetHandle(h) => h in s.handles
    case PutHandle(h) => h in s.heldH && h in s.handles && s.handles[h].buffer in s.buffers
    case UserTakes(h) => h in s.heldH
    case UserDrops(h) => h in s.taken
    case VmaTakes(v, h) => v !in s.vmas && h in s.heldH && h in s.handles && s.handles[h].client in s.heldC
    case VmaDrops(v) => v in s.vmas && s.vmas[v] in s.handles
    case NewClient(c, task) => c !in s.clients && (task.Some? ==> NoClientFor(s, task))
    case GetClient(c) => c in s.clients
    case PutClient(c) => c in s.heldC && c in s.clients && s.clients[c].ref > 1
    case DestroyHandleOf(h) =>
      && h in s.handles && h !in s.heldH && s.handles[h].buffer in s.buffers
      && s.handles[h].client in s.heldC && s.handles[h].client in s.clients && s.clients[s.handles[h].client].ref == 1
    case DropClient(c) => c in s.heldC && c in s.clients && s.clients[c].ref == 1 && NoHandleOf(s, c)
    case OpenTakes(o, c) => c in s.heldC && o !in s.opens
    case OpenDrops(o) => o in s.opens
    case CountMap(h, m) => h in s.handles && s.handles[h].buffer in s.buffers
    case CountUnmap(h, m) =>
      && h in s.handles && s.handles[h].buffer in s.buffers
      && HandleCnt(s.handles[h], m) > 0 && BufferCnt(s.buffers[s.handles[h].buffer], m) > 0
    case FailMap(h, m) =>
      && h in s.handles && s.handles[h].buffer in s.buffers
      && HandleCnt(s.handles[h], m) == 0 && BufferCnt(s.buffers[s.handles[h].buffer], m) == 0
  }

  // ----- what each kref operation does -----

  /** kref_put on a buffer: the last reference runs ion_buffer_destroy ... */
  function BuffersPut(buffers: map<nat, Buffer>, b: nat): map<nat, Buffer> {
    if b !in buffers then buffers
    else if buffers[b].ref <= 1 then buffers - {b}
    else buffers[b := buffers[b].(ref := buffers[b].ref - 1)]
  }

  /** ... which frees it. */
  function FreesPut(buffers: map<nat, Buffer>, freed: multiset<nat>, b: nat): multiset<nat> {
    if b in buffers && buffers[b].ref <= 1 then freed + multiset{b} else freed
  }

  function BufferPut(s: State, b: nat): State {
    s.(buffers := BuffersPut(s.buffers, b), freed := FreesPut(s.buffers, s.freed, b))
  }

  /** ion_handle_destroy: drop the buffer, leave the client's tree. */
  function HandleDestroy(s: State, h: nat): State {
    if h !in s.handles then s
    else
      var b := s.handles[h].buffer;
      s.(buffers := BuffersPut(s.buffers, b), freed := FreesPut(s.buffers, s.freed, b), handles := s.handles - {h})
  }

  /** ion_handle_put: the last reference destroys the handle. */
  function HandlesPut(handles: map<nat, Handle>, h: nat): map<nat, Handle> {
    if h !in handles then handles
    else if handles[h].ref <= 1 then handles - {h}
    else handles[h := handles[h].(ref := handles[h].ref - 1)]
  }

  function HandlePut(s: State, h: nat): State {
    if h in s.handles && s.handles[h].ref <= 1 then HandleDestroy(s, h)
    else s.(handles := HandlesPut(s.handles, h))
  }

  /** _ion_map on a handle and its buffer. */
  function MapCounted(s: State, h: nat, m: Mode): State
    requires h in s.handles && s.handles[h].buffer in s.buffers
  {
    var b := s.handles[h].buffer;
    var bc, hc := BufferCnt(s.buffers[b], m), HandleCnt(s.handles[h], m);
    s.(buffers := s.buffers[b := WithBufferCnt(s.buffers[b], m, if hc == 0 then bc + 1 else bc)],
       handles := s.handles[h := WithHandleCnt(s.handles[h], m, hc + 1)])
  }

  /** _ion_unmap on a handle and its buffer. */
  function UnmapCounted(s: State, h: nat, m: Mode): State
    requires h in s.handles && s.handles[h].buffer in s.buffers
    requires HandleCnt(s.handles[h], m) > 0
    requires HandleCnt(s.handles[h], m) == 1 ==> BufferCnt(s.buffers[s.handles[h].buffer], m) > 0
  {
    var b := s.handles[h].buffer;
    var bc, hc := BufferCnt(s.buffers[b], m), HandleCnt(s.handles[h], m);
    s.(buffers := s.buffers[b := WithBufferCnt(s.buffers[b], m, if hc == 1 then bc - 1 else bc)],
       handles := s.handles[h := WithHandleCnt(s.handles[h], m, hc - 1)])
  }

  /** The state after a step. */
  ghost function Apply(s: State, p: Step): State
    requires Enabled(s, p)
  {
    match p
    case NewBuffer(b) =>
      s.(buffers := s.buffers[b := Buffer(1, 0, 0)], heldB := s.heldB + multiset{b}, born := s.born + {b})
    case GetBuffer(b) =>
      s.(buffers := s.buffers[b := s.buffers[b].(ref := s.buffers[b].ref + 1)], heldB := s.heldB + multiset{b})
    case PutBuffer(b) => BufferPut(s, b).(heldB := s.heldB - multiset{b})
    case FileTakes(f, b) => s.(files := s.files[f := b], heldB := s.heldB - multiset{b})
    case FileDrops(f) => s.(files := s.files - {f}, heldB := s.heldB + multiset{s.files[f]})
    case NewHandle(h, c, b) =>
      s.(handles := s.handles[h := Handle(1, c, b, 0, 0)], heldB := s.heldB - multiset{b},
         heldH := s.heldH + multiset{h})
    case GetHandle(h) =>
      s.(handles := s.handles[h := s.handles[h].(ref := s.handles[h].ref + 1)], heldH := s.heldH + multiset{h})
    case PutHandle(h) => HandlePut(s, h).(heldH := s.heldH - multiset{h})
    case UserTakes(h) => s.(taken := s.taken + multiset{h}, heldH := s.heldH - multiset{h})
    case UserDrops(h) => s.(taken := s.taken - multiset{h}, heldH := s.heldH + multiset{h})
    case VmaTakes(v, h) =>
      s.(vmas := s.vmas[v := h], heldH := s.heldH - multiset{h}, heldC := s.heldC - multiset{s.handles[h].client})
    case VmaDrops(v) =>
      s.(vmas := s.vmas - {v}, heldH := s.heldH + multiset{s.vmas[v]},
         heldC := s.heldC + multiset{s.handles[s.vmas[v]].client})
    case NewClient(c, task) => s.(clients := s.clients[c := Client(1, task)], heldC := s.heldC + multiset{c})
    case GetClient(c) =>
      s.(clients := s.clients[c := s.clients[c].(ref := s.clients[c].ref + 1)], heldC := s.heldC + multiset{c})
    case PutClient(c) =>
      s.(clients := s.clients[c := s.clients[c].(ref := s.clients[c].ref - 1)], heldC := s.heldC - multiset{c})
    case DestroyHandleOf(h) => HandleDestroy(s, h).(taken := s.taken[h := 0])
    case DropClient(c) => s.(clients := s.clients - {c}, heldC := s.heldC - multiset{c})
    case OpenTakes(o, c) => s.(opens := s.opens[o := c], heldC := s.heldC - multiset{c})
    case OpenDrops(o) => s.(opens := s.opens - {o}, heldC := s.heldC + multiset{s.opens[o]})
    case CountMap(h, m) => MapCounted(s, h, m)
    case CountUnmap(h, m) => UnmapCounted(s, h, m)
    case FailMap(h, m) => s
  }

  // ----- counting -----

  lemma KeyAdded(m: map<nat, nat>, k: nat, x: nat, y: nat)
    requires k !in m
    ensures |KeysOf(m[k := x], y)| == |KeysOf(m, y)| + (if y == x then 1 else 0)
  {
    if y == x {
      assert KeysOf(m[k := x], y) == KeysOf(m, y) + {k};
    } else {
      assert KeysOf(m[k := x], y) == KeysOf(m, y);
    }
  }

  lemma KeysAdd(m: map<nat, nat>, k: nat, x: nat)
    requires k !in m
    ensures forall y :: |KeysOf(m[k := x], y)| == |KeysOf(m, y)| + (if y == x then 1 else 0)
  {
    hide KeysOf;
    forall y: nat
      ensures |KeysOf(m[k := x], y)| == |KeysOf(m, y)| + (if y == x then 1 else 0)
    {
      KeyAdded(m, k, x, y);
    }
  }

  lemma KeyRemoved(m: map<nat, nat>, k: nat, y: nat)
    requires k in m
    ensures |KeysOf(m - {k}, y)| == |KeysOf(m, y)| - (if y == m[k] then 1 else 0)
  {
    if y == m[k] {
      assert KeysOf(m, y) == KeysOf(m - {k}, y) + {k};
    } else {
      assert KeysOf(m - {k}, y) == KeysOf(m, y);
    }
  }

  lemma KeysRemove(m: map<nat, nat>, k: nat)
    requires k in m
    ensures forall y :: |KeysOf(m - {k}, y)| == |KeysOf(m, y)| - (if y == m[k] then 1 else 0)
  {
    hide KeysOf;
    forall y: nat
      ensures |KeysOf(m - {k}, y)| == |KeysOf(m, y)| - (if y == m[k] then 1 else 0)
    {
      KeyRemoved(m, k, y);
    }
  }

  lemma HandleAdded(handles: map<nat, Handle>, h: nat, x: Handle, b: nat)
    requires h !in handles
    ensures |HandlesOf(handles[h := x], b)| == |HandlesOf(handles, b)| + (if b == x.buffer then 1 else 0)
  {
    if b == x.buffer {
      assert HandlesOf(handles[h := x], b) == HandlesOf(handles, b) + {h};
    } else {
      assert HandlesOf(handles[h := x], b) == HandlesOf(handles, b);
    }
  }

  lemma HandlesAdd(handles: map<nat, Handle>, h: nat, x: Handle)
    requires h !in handles
    ensures forall b :: |HandlesOf(handles[h := x], b)| == |HandlesOf(handles, b)| + (if b == x.buffer then 1 else 0)
  {
    hide HandlesOf;
    forall b: nat
      ensures |HandlesOf(handles[h := x], b)| == |HandlesOf(handles, b)| + (if b == x.buffer then 1 else 0)
    {
      HandleAdded(handles, h, x, b);
    }
  }

  lemma HandleRemoved(handles: map<nat, Handle>, h: nat, b: nat)
    requires h in handles
    ensures |HandlesOf(handles - {h}, b)| == |HandlesOf(handles, b)| - (if b == handles[h].buffer then 1 else 0)
  {
    if b == handles[h].buffer {
      assert HandlesOf(handles, b) == HandlesOf(handles - {h}, b) + {h};
    } else {
      assert HandlesOf(handles - {h}, b) == HandlesOf(handles, b);
    }
  }

  lemma HandlesRemove(handles: map<nat, Handle>, h: nat)
    requires h in handles
    ensures forall b ::
      |HandlesOf(handles - {h}, b)| == |HandlesOf(handles, b)| - (if b == handles[h].buffer then 1 else 0)
  {
    hide HandlesOf;
    forall b: nat
      ensures |HandlesOf(handles - {h}, b)| == |HandlesOf(handles, b)| - (if b == handles[h].buffer then 1 else 0)
    {
      HandleRemoved(handles, h, b);
    }
  }

  lemma VmaAdded(handles: map<nat, Handle>, vmas: map<nat, nat>, v: nat, h: nat, c: nat)
    requires h in handles && v !in vmas
    ensures |VmasOf(handles, vmas[v := h], c)| == |VmasOf(handles, vmas, c)| + (if c == handles[h].client then 1 else 0)
  {
    var was, now := VmasOf(handles, vmas, c), VmasOf(handles, vmas[v := h], c);
    assert v !in was;
    forall w: nat
      ensures w in now <==> w in was || (w == v && c == handles[h].client)
    {
    }
    assert now == if c == handles[h].client then was + {v} else was;
  }

  lemma VmasAdd(handles: map<nat, Handle>, vmas: map<nat, nat>, v: nat, h: nat)
    requires h in handles && v !in vmas
    ensures forall c ::
      |VmasOf(handles, vmas[v := h], c)| == |VmasOf(handles, vmas, c)| + (if c == handles[h].client then 1 else 0)
  {
    hide VmasOf;
    forall c: nat
      ensures |VmasOf(handles, vmas[v := h], c)| ==
        |VmasOf(handles, vmas, c)| + (if c == handles[h].client then 1 else 0)
    {
      VmaAdded(handles, vmas, v, h, c);
    }
  }

  lemma VmaRemoved(handles: map<nat, Handle>, vmas: map<nat, nat>, v: nat, c: nat)
    requires v in vmas && vmas[v] in handles
    ensures |VmasOf(handles, vmas - {v}, c)| ==
      |VmasOf(handles, vmas, c)| - (if c == handles[vmas[v]].client then 1 else 0)
  {
    if c == handles[vmas[v]].client {
      assert VmasOf(handles, vmas, c) == VmasOf(handles, vmas - {v}, c) + {v};
    } else {
      assert VmasOf(handles, vmas - {v}, c) == VmasOf(handles, vmas, c);
    }
  }

  lemma VmasRemove(handles: map<nat, Handle>, vmas: map<nat, nat>, v: nat)
    requires v in vmas && vmas[v] in handles
    ensures forall c ::
      |VmasOf(handles, vmas - {v}, c)| == |VmasOf(handles, vmas, c)| - (if c == handles[vmas[v]].client then 1 else 0)
  {
    hide VmasOf;
    forall c: nat
      ensures |VmasOf(handles, vmas - {v}, c)| ==
        |VmasOf(handles, vmas, c)| - (if c == handles[vmas[v]].client then 1 else 0)
    {
      VmaRemoved(handles, vmas, v, c);
    }
  }

  // ----- the buffer counts under each kind of change -----

  lemma BufferNew(buffers: map<nat, Buffer>, handles: map<nat, Handle>, files: map<nat, nat>, held: multiset<nat>,
                  b: nat)
    requires BuffersCounted(buffers, handles, files, held) && b !in buffers
    ensures BuffersCounted(buffers[b := Buffer(1, 0, 0)], handles, files, held + multiset{b})
  {
    assert HandlesOf(handles, b) == {} && KeysOf(files, b) == {};
  }

  lemma BufferGet(buffers: map<nat, Buffer>, handles: map<nat, Handle>, files: map<nat, nat>, held: multiset<nat>,
                  b: nat)
    requires BuffersCounted(buffers, handles, files, held) && b in buffers
    ensures BuffersCounted(buffers[b := buffers[b].(ref := buffers[b].ref + 1)], handles, files, held + multiset{b})
  {
  }

  lemma BufferPutDown(buffers: map<nat, Buffer>, handles: map<nat, Handle>, files: map<nat, nat>, held: multiset<nat>,
                      b: nat)
    requires BuffersCounted(buffers, handles, files, held) && b in held && buffers[b].ref > 1
    ensures BuffersCounted(buffers[b := buffers[b].(ref := buffers[b].ref - 1)], handles, files, held - multiset{b})
  {
    hide HandlesOf, KeysOf;
  }

  lemma BufferLastPut(buffers: map<nat, Buffer>, handles: map<nat, Handle>, files: map<nat, nat>, held: multiset<nat>,
                      b: nat)
    requires BuffersCounted(buffers, handles, files, held) && b in held && buffers[b].ref <= 1
    ensures BuffersCounted(buffers - {b}, handles, files, held - multiset{b})
  {
    assert |HandlesOf(handles, b)| == 0 && |KeysOf(files, b)| == 0 && held[b] == 1;
    assert forall h :: h in handles ==> h !in HandlesOf(handles, b);
    assert forall f :: f in files ==> f !in KeysOf(files, b);
  }

  lemma BufferFileTakes(buffers: map<nat, Buffer>, handles: map<nat, Handle>, files: map<nat, nat>, held: multiset<nat>,
                        f: nat, b: nat)
    requires BuffersCounted(buffers, handles, files, held) && b in held && f !in files
    ensures BuffersCounted(buffers, handles, files[f := b], held - multiset{b})
  {
    KeysAdd(files, f, b);
  }

  lemma BufferFileDrops(buffers: map<nat, Buffer>, handles: map<nat, Handle>, files: map<nat, nat>, held: multiset<nat>,
                        f: nat)
    requires BuffersCounted(buffers, handles, files, held) && f in files
    ensures BuffersCounted(buffers, handles, files - {f}, held + multiset{files[f]})
  {
    KeysRemove(files, f);
  }

  lemma BufferHandleNew(buffers: map<nat, Buffer>, handles: map<nat, Handle>, files: map<nat, nat>, held: multiset<nat>,
                        h: nat, x: Handle)
    requires BuffersCounted(buffers, handles, files, held) && h !in handles && x.buffer in held
    ensures BuffersCounted(buffers, handles[h := x], files, held - multiset{x.buffer})
  {
    hide HandlesOf;
    HandlesAdd(handles, h, x);
  }

  lemma BufferHandleGone(buffers: map<nat, Buffer>, handles: map<nat, Handle>, files: map<nat, nat>,
                         held: multiset<nat>, h: nat)
    requires BuffersCounted(buffers, handles, files, held) && h in handles
    ensures BuffersCounted(buffers, handles - {h}, files, held + multiset{handles[h].buffer})
  {
    hide HandlesOf;
    HandlesRemove(handles, h);
  }

  lemma BufferHandleSame(buffers: map<nat, Buffer>, handles: map<nat, Handle>, files: map<nat, nat>,
                         held: multiset<nat>, h: nat, x: Handle)
    requires BuffersCounted(buffers, handles, files, held) && h in handles && x.buffer == handles[h].buffer
    ensures BuffersCounted(buffers, handles[h := x], files, held)
  {
    forall b: nat
      ensures HandlesOf(handles[h := x], b) == HandlesOf(handles, b)
    {
    }
  }

  // ----- the handle counts -----

  lemma HandleNew(handles: map<nat, Handle>, taken: multiset<nat>, vmas: map<nat, nat>, held: multiset<nat>, h: nat,
                  x: Handle)
    requires HandlesCounted(handles, taken, vmas, held) && h !in handles && x.ref == 1
    ensures HandlesCounted(handles[h := x], taken, vmas, held + multiset{h})
  {
    assert KeysOf(vmas, h) == {};
  }

  lemma HandleGet(handles: map<nat, Handle>, taken: multiset<nat>, vmas: map<nat, nat>, held: multiset<nat>, h: nat)
    requires HandlesCounted(handles, taken, vmas, held) && h in handles
    ensures HandlesCounted(handles[h := handles[h].(ref := handles[h].ref + 1)], taken, vmas, held + multiset{h})
  {
  }

  lemma HandlePutDown(handles: map<nat, Handle>, taken: multiset<nat>, vmas: map<nat, nat>, held: multiset<nat>, h: nat)
    requires HandlesCounted(handles, taken, vmas, held) && h in held
    requires handles[h].ref > 1
    ensures HandlesCounted(handles[h := handles[h].(ref := handles[h].ref - 1)], taken, vmas, held - multiset{h})
  {
    hide KeysOf;
  }

  lemma HandleLastPut(handles: map<nat, Handle>, taken: multiset<nat>, vmas: map<nat, nat>, held: multiset<nat>, h: nat)
    requires HandlesCounted(handles, taken, vmas, held) && h in held
    requires handles[h].ref <= 1
    ensures HandlesCounted(handles - {h}, taken, vmas, held - multiset{h})
    ensures forall v :: v in vmas ==> vmas[v] != h
  {
    assert |KeysOf(vmas, h)| == 0 && taken[h] == 0 && held[h] == 1;
    assert forall v :: v in vmas ==> v !in KeysOf(vmas, h);
  }

  lemma HandleUser(handles: map<nat, Handle>, taken: multiset<nat>, vmas: map<nat, nat>, held: multiset<nat>, h: nat)
    requires HandlesCounted(handles, taken, vmas, held)
    ensures h in held ==> HandlesCounted(handles, taken + multiset{h}, vmas, held - multiset{h})
    ensures h in taken ==> HandlesCounted(handles, taken - multiset{h}, vmas, held + multiset{h})
  {
  }

  lemma HandleVmaTakes(handles: map<nat, Handle>, taken: multiset<nat>, vmas: map<nat, nat>, held: multiset<nat>,
                       v: nat, h: nat)
    requires HandlesCounted(handles, taken, vmas, held) && h in held && v !in vmas
    ensures HandlesCounted(handles, taken, vmas[v := h], held - multiset{h})
  {
    KeysAdd(vmas, v, h);
  }

  lemma HandleVmaDrops(handles: map<nat, Handle>, taken: multiset<nat>, vmas: map<nat, nat>, held: multiset<nat>,
                       v: nat)
    requires HandlesCounted(handles, taken, vmas, held) && v in vmas
    ensures HandlesCounted(handles, taken, vmas - {v}, held + multiset{vmas[v]})
  {
    KeysRemove(vmas, v);
  }

  lemma HandleForced(handles: map<nat, Handle>, taken: multiset<nat>, vmas: map<nat, nat>, held: multiset<nat>, h: nat)
    requires HandlesCounted(handles, taken, vmas, held) && h in handles
    requires h !in held && (forall v :: v in vmas ==> vmas[v] != h)
    ensures HandlesCounted(handles - {h}, taken[h := 0], vmas, held)
  {
  }

  // ----- the client counts -----

  lemma ClientNew(clients: map<nat, Client>, handles: map<nat, Handle>, vmas: map<nat, nat>, opens: map<nat, nat>,
                  held: multiset<nat>, c: nat, x: Client)
    requires ClientsCounted(clients, handles, vmas, opens, held) && c !in clients && x.ref == 1
    ensures ClientsCounted(clients[c := x], handles, vmas, opens, held + multiset{c})
  {
    assert VmasOf(handles, vmas, c) == {} && KeysOf(opens, c) == {};
  }

  lemma ClientGet(clients: map<nat, Client>, handles: map<nat, Handle>, vmas: map<nat, nat>, opens: map<nat, nat>,
                  held: multiset<nat>, c: nat)
    requires ClientsCounted(clients, handles, vmas, opens, held) && c in clients
    ensures ClientsCounted(clients[c := clients[c].(ref := clients[c].ref + 1)], handles, vmas, opens,
                           held + multiset{c})
  {
  }

  lemma ClientPutDown(clients: map<nat, Client>, handles: map<nat, Handle>, vmas: map<nat, nat>, opens: map<nat, nat>,
                      held: multiset<nat>, c: nat)
    requires ClientsCounted(clients, handles, vmas, opens, held) && c in held && clients[c].ref > 1
    ensures ClientsCounted(clients[c := clients[c].(ref := clients[c].ref - 1)], handles, vmas, opens,
                           held - multiset{c})
  {
  }

  lemma ClientDrop(clients: map<nat, Client>, handles: map<nat, Handle>, vmas: map<nat, nat>, opens: map<nat, nat>,
                   held: multiset<nat>, c: nat)
    requires ClientsCounted(clients, handles, vmas, opens, held) && c in held && clients[c].ref == 1
    requires forall h :: h in handles ==> handles[h].client != c
    ensures ClientsCounted(clients - {c}, handles, vmas, opens, held - multiset{c})
  {
    assert |KeysOf(opens, c)| == 0 && held[c] == 1;
    assert forall o :: o in opens ==> o !in KeysOf(opens, c);
  }

  /** While a call holds a client's only reference, none of its handles is mapped to user space. */
  lemma LastReferenceMeansNoMapping(clients: map<nat, Client>, handles: map<nat, Handle>, vmas: map<nat, nat>,
                                    opens: map<nat, nat>, held: multiset<nat>, h: nat)
    requires ClientsCounted(clients, handles, vmas, opens, held) && h in handles
    requires handles[h].client in held && clients[handles[h].client].ref == 1
    ensures forall v :: v in vmas ==> vmas[v] != h
  {
    var c := handles[h].client;
    assert |VmasOf(handles, vmas, c)| == 0;
    assert forall v :: v in vmas ==> v !in VmasOf(handles, vmas, c);
  }

  lemma ClientOpenTakes(clients: map<nat, Client>, handles: map<nat, Handle>, vmas: map<nat, nat>, opens: map<nat, nat>,
                        held: multiset<nat>, o: nat, c: nat)
    requires ClientsCounted(clients, handles, vmas, opens, held) && c in held && o !in opens
    ensures ClientsCounted(clients, handles, vmas, opens[o := c], held - multiset{c})
  {
    KeysAdd(opens, o, c);
  }

  lemma ClientOpenDrops(clients: map<nat, Client>, handles: map<nat, Handle>, vmas: map<nat, nat>, opens: map<nat, nat>,
                        held: multiset<nat>, o: nat)
    requires ClientsCounted(clients, handles, vmas, opens, held) && o in opens
    ensures ClientsCounted(clients, handles, vmas, opens - {o}, held + multiset{opens[o]})
  {
    KeysRemove(opens, o);
  }

  lemma ClientVmaTakes(clients: map<nat, Client>, handles: map<nat, Handle>, vmas: map<nat, nat>, opens: map<nat, nat>,
                       held: multiset<nat>, v: nat, h: nat)
    requires ClientsCounted(clients, handles, vmas, opens, held)
    requires h in handles && handles[h].client in held && v !in vmas
    ensures ClientsCounted(clients, handles, vmas[v := h], opens, held - multiset{handles[h].client})
  {
    hide VmasOf;
    VmasAdd(handles, vmas, v, h);
  }

  lemma ClientVmaDrops(clients: map<nat, Client>, handles: map<nat, Handle>, vmas: map<nat, nat>, opens: map<nat, nat>,
                       held: multiset<nat>, v: nat)
    requires ClientsCounted(clients, handles, vmas, opens, held) && v in vmas && vmas[v] in handles
    ensures ClientsCounted(clients, handles, vmas - {v}, opens, held + multiset{handles[vmas[v]].client})
  {
    hide VmasOf;
    VmasRemove(handles, vmas, v);
  }

  /** Handles may come, change their counts, and go when unmapped, without touching the client counts. */
  lemma ClientHandlePut(clients: map<nat, Client>, handles: map<nat, Handle>, vmas: map<nat, nat>, opens: map<nat, nat>,
                        held: multiset<nat>, h: nat, x: Handle)
    requires ClientsCounted(clients, handles, vmas, opens, held)
    requires x.client in clients
    requires if h in handles then x.client == handles[h].client else forall v :: v in vmas ==> vmas[v] != h
    ensures ClientsCounted(clients, handles[h := x], vmas, opens, held)
  {
    forall c: nat
      ensures VmasOf(handles[h := x], vmas, c) == VmasOf(handles, vmas, c)
    {
    }
  }

  lemma ClientHandleGone(clients: map<nat, Client>, handles: map<nat, Handle>, vmas: map<nat, nat>,
                         opens: map<nat, nat>, held: multiset<nat>, h: nat)
    requires ClientsCounted(clients, handles, vmas, opens, held) && (forall v :: v in vmas ==> vmas[v] != h)
    ensures ClientsCounted(clients, handles - {h}, vmas, opens, held)
  {
    forall c: nat
      ensures VmasOf(handles - {h}, vmas, c) == VmasOf(handles, vmas, c)
    {
    }
  }

  // ----- uniqueness and frees -----

  lemma UniqueWithout(handles: map<nat, Handle>, h: nat)
    requires OneHandlePerBuffer(handles)
    ensures OneHandlePerBuffer(handles - {h})
  {
  }

  lemma UniqueSame(handles: map<nat, Handle>, h: nat, x: Handle)
    requires OneHandlePerBuffer(handles) && h in handles
    requires x.client == handles[h].client && x.buffer == handles[h].buffer
    ensures OneHandlePerBuffer(handles[h := x])
  {
  }

  lemma UniqueNew(handles: map<nat, Handle>, h: nat, x: Handle)
    requires OneHandlePerBuffer(handles) && h !in handles
    requires forall k :: k in handles ==> !(handles[k].client == x.client && handles[k].buffer == x.buffer)
    ensures OneHandlePerBuffer(handles[h := x])
  {
  }

  lemma TaskSame(clients: map<nat, Client>, c: nat, x: Client)
    requires OneClientPerTask(clients) && c in clients && x.task == clients[c].task
    ensures OneClientPerTask(clients[c := x])
  {
  }

  lemma TaskNew(clients: map<nat, Client>, c: nat, x: Client)
    requires OneClientPerTask(clients) && c !in clients
    requires x.task.Some? ==> forall d :: d in clients ==> clients[d].task != x.task
    ensures OneClientPerTask(clients[c := x])
  {
  }

  lemma TaskWithout(clients: map<nat, Client>, c: nat)
    requires OneClientPerTask(clients)
    ensures OneClientPerTask(clients - {c})
  {
  }

  lemma FreedSame(buffers: map<nat, Buffer>, born: set<nat>, freed: multiset<nat>, b: nat, x: Buffer)
    requires FreedOnce(buffers, born, freed) && b in buffers
    ensures FreedOnce(buffers[b := x], born, freed)
  {
  }

  lemma FreedNew(buffers: map<nat, Buffer>, born: set<nat>, freed: multiset<nat>, b: nat, x: Buffer)
    requires FreedOnce(buffers, born, freed) && b !in born
    ensures FreedOnce(buffers[b := x], born + {b}, freed)
  {
  }

  lemma FreedNow(buffers: map<nat, Buffer>, born: set<nat>, freed: multiset<nat>, b: nat)
    requires FreedOnce(buffers, born, freed) && b in buffers
    ensures FreedOnce(buffers - {b}, born, freed + multiset{b})
  {
  }

  // ----- changes that leave every kref alone -----

  lemma BufferSameRef(buffers: map<nat, Buffer>, handles: map<nat, Handle>, files: map<nat, nat>, held: multiset<nat>,
                      b: nat, x: Buffer)
    requires BuffersCounted(buffers, handles, files, held) && b in buffers && x.ref == buffers[b].ref
    ensures BuffersCounted(buffers[b := x], handles, files, held)
  {
    hide HandlesOf, KeysOf;
  }

  lemma HandleSameRef(handles: map<nat, Handle>, taken: multiset<nat>, vmas: map<nat, nat>, held: multiset<nat>, h: nat,
                      x: Handle)
    requires HandlesCounted(handles, taken, vmas, held) && h in handles && x.ref == handles[h].ref
    ensures HandlesCounted(handles[h := x], taken, vmas, held)
  {
    hide KeysOf;
  }
}
