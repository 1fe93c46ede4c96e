/**
  The ion device. Each method performs one call of modules/ion/gpu/ion.c kref by kref, in the order of the
  source, and is proved to end in the state that IonCalls describes. Addresses of new objects and the failures
  of kzalloc, of heaps and of user mappings are parameters.
 */
module IonDevices {
  import opened IonRefs
  import opened Options
  import opened IonRuns
  import opened IonMaps
  import IonCalls
  import IonLaws

  /** The loop of _ion_client_destroy: t is s with the handles in `order` destroyed. */
  ghost predicate Emptying(s: State, t: State, c: nat, order: seq<nat>) {
    && t == IonCalls.HandlesDestroyed(s, order)
    && OneHandlePerBuffer(t.handles)
    && (forall h :: h in t.handles ==> h in s.handles && t.handles[h] == s.handles[h])
    && (forall h :: h in s.handles ==> h in t.handles || h in order)
    && (forall h :: h in order ==> h !in t.handles && h in s.handles && s.handles[h].client == c)
    && (forall i, j :: 0 <= i < j < |order| ==> order[i] != order[j])
    && (forall h :: h in t.handles && t.handles[h].client == c ==> t.handles[h].buffer in t.buffers)
  }

  class IonDevice {
    var buffers: map<nat, Buffer>
    var handles: map<nat, Handle>
    var clients: map<nat, Client>
    var files: map<nat, nat>
    var vmas: map<nat, nat>
    var opens: map<nat, nat>
    /** References handed out by alloc and import and not yet freed. */
    ghost var taken: multiset<nat>
    ghost var born: set<nat>
    ghost var freed: multiset<nat>
    /** Buffers whose heap mapping is in effect. */
    ghost var kernelLive: set<nat>
    ghost var dmaLive: set<nat>

    ghost function View(): State
      reads this
    {
      State(buffers, handles, clients, files, vmas, opens, taken, multiset{}, multiset{}, multiset{}, born, freed)
    }

    /** Every reference has exactly one holder. */
    ghost predicate Valid()
      reads this
    {
      IonCalls.DeviceRefs(View())
    }

    /** The map counts are right in both modes. No call breaks them but one that destroys a mapped handle. */
    ghost predicate MapsRight()
      reads this
    {
      IonCalls.DeviceMaps(View(), kernelLive, dmaLive)
    }

    constructor ()
      ensures Valid() && MapsRight() && View() == Initial() && kernelLive == {} && dmaLive == {}
    {
      buffers, handles, clients, files, vmas, opens := map[], map[], map[], map[], map[], map[];
      taken, born, freed, kernelLive, dmaLive := multiset{}, {}, multiset{}, {}, {};
      new;
      InitialHolds();
    }

    // ----- the kref operations -----

    method BufferGet(b: nat)
      requires b in buffers
      modifies this`buffers
      ensures View() == IonCalls.AddRefBuffer(old(View()), b)
    {
      buffers := buffers[b := buffers[b].(ref := buffers[b].ref + 1)];
    }

    /** ion_buffer_put, with ion_buffer_destroy on the last reference */
    method BufferPut(b: nat)
      requires b in buffers
      modifies this`buffers, this`freed
      ensures View() == IonRefs.BufferPut(old(View()), b)
    {
      if buffers[b].ref <= 1 {
        buffers := buffers - {b};
        freed := freed + multiset{b};
      } else {
        buffers := buffers[b := buffers[b].(ref := buffers[b].ref - 1)];
      }
    }

    /** ion_handle_create and ion_handle_add */
    method HandleCreate(c: nat, b: nat, h: nat)
      requires b in buffers
      modifies this`buffers, this`handles
      ensures View() == IonCalls.NewHandleState(old(View()), c, b, h)
    {
      BufferGet(b);
      handles := handles[h := Handle(1, c, b, 0, 0)];
    }

    /** ion_client_get */
    method ClientGet(c: nat)
      requires c in clients
      modifies this`clients
      ensures View() == IonCalls.AddRefClient(old(View()), c)
    {
      clients := clients[c := clients[c].(ref := clients[c].ref + 1)];
    }

    method HandleDestroy(h: nat)
      requires h in handles && handles[h].buffer in buffers
      modifies this`buffers, this`handles, this`freed
      ensures View() == IonRefs.HandleDestroy(old(View()), h)
    {
      BufferPut(handles[h].buffer);
      handles := handles - {h};
    }

    /** ion_handle_put, with ion_handle_destroy on the last reference */
    method HandlePut(h: nat)
      requires h in handles && handles[h].buffer in buffers
      modifies this`buffers, this`handles, this`freed
      ensures View() == IonRefs.HandlePut(old(View()), h)
    {
      hide IonRefs.HandleDestroy;
      if handles[h].ref <= 1 {
        HandleDestroy(h);
      } else {
        handles := handles[h := handles[h].(ref := handles[h].ref - 1)];
      }
    }

    /**
      ion_client_put, with _ion_client_destroy on the last reference: the client's handles are destroyed one
      after another, whatever their counts, and then the client. `order` is the order they were found in.
     */
    method ClientPut(c: nat) returns (ghost order: seq<nat>)
      requires c in clients
      requires OneHandlePerBuffer(handles)
      requires forall h :: h in handles && handles[h].client == c ==> handles[h].buffer in buffers
      modifies this`clients, this`handles, this`buffers, this`freed, this`taken
      ensures View() == IonCalls.ClientPut(old(View()), c, order)
      ensures IonCalls.OrderedIfLast(old(View()), c, order)
    {
      hide OneHandlePerBuffer, IonRefs.HandleDestroy, Emptying;
      order := [];
      if clients[c].ref > 1 {
        clients := clients[c := clients[c].(ref := clients[c].ref - 1)];
        return;
      }
      ghost var s := View();
      EmptyingStart(s, c);
      while exists h :: h in handles && handles[h].client == c
        invariant Emptying(s, View(), c, order) && clients == old(clients)
        decreases handles.Keys
      {
        var h :| h in handles && handles[h].client == c;
        EmptyingNext(s, View(), c, order, h);
        HandleDestroy(h);
        taken := taken[h := 0];
        order := order + [h];
      }
      EmptyingDone(s, View(), c, order);
      clients := clients - {c};
    }

    // ----- the calls -----

    lemma Facts()
      requires Valid()
      ensures forall h :: h in handles ==>
        handles[h].buffer in buffers && handles[h].client in clients && handles[h].ref > 0
      ensures forall b :: b in buffers ==> b in born && buffers[b].ref > 0
      ensures forall f :: f in files ==> files[f] in buffers
      ensures forall v :: v in vmas ==> vmas[v] in handles
      ensures forall o :: o in opens ==> opens[o] in clients
      ensures forall h :: h in taken ==> h in handles
      ensures forall c :: c in clients ==> clients[c].ref > 0
      ensures OneHandlePerBuffer(handles)
    {
      RefsPositive(View());
      LinksAlive(View());
      IonCalls.TakenAlive(View());
    }

    /** ion_open and ion_client_create: one client per task, shared by all its opens. */
    method Open(task: Option<nat>, spare: Option<nat>, o: nat) returns (r: Option<nat>)
      requires Valid() && o !in opens && (spare.Some? ==> spare.value !in clients)
      modifies this`clients, this`opens
      ensures Valid() && (old(MapsRight()) ==> MapsRight())
      ensures r.None? ==> View() == old(View()) && spare.None? && (task.Some? ==> NoClientFor(old(View()), task))
      ensures r.Some? ==> View() == IonCalls.Opened(old(View()), r.value, o, task)
      ensures r.Some? ==>
        if r.value in old(clients) then task.Some? && old(clients)[r.value].task == task else r == spare
      ensures r.Some? ==>
        opens == old(opens)[o := r.value] && clients == IonLaws.ClientGained(old(clients), r.value, task)
    {
      hide IonCalls.DeviceRefs, IonCalls.DeviceMaps, IonLaws.ClientGained;
      ghost var s := View();
      if task.Some? && exists d :: d in clients && clients[d].task == task {
        var d :| d in clients && clients[d].task == task;
        IonCalls.OpenKeeps(s, d, o, task, kernelLive, dmaLive);
        IonLaws.OpenDoes(s, d, o, task);
        clients := clients[d := clients[d].(ref := clients[d].ref + 1)];
        opens := opens[o := d];
        return Some(d);
      }
      if spare.None? {
        return None;
      }
      IonCalls.OpenKeeps(s, spare.value, o, task, kernelLive, dmaLive);
      IonLaws.OpenDoes(s, spare.value, o, task);
      clients := clients[spare.value := Client(1, task)];
      opens := opens[o := spare.value];
      return spare;
    }

    /**
      ion_release and ion_client_destroy. References stay exact in any case; the map counts stay right exactly
      when a client that goes has no mapped handle left.
     */
    method Release(o: nat) returns (ghost order: seq<nat>)
      requires Valid() && o in opens
      modifies this`opens, this`clients, this`handles, this`buffers, this`freed, this`taken
      ensures Valid() && View() == IonCalls.Released(old(View()), o, order)
      ensures opens == old(opens) - {o} && IonLaws.ClientLoses(old(View()), old(opens)[o], View())
      ensures old(MapsRight()) ==> (MapsRight() <==> IonCalls.MayLose(old(View()), old(opens)[o]))
    {
      hide IonCalls.DeviceRefs, IonCalls.DeviceMaps, IonCalls.ClientPut, IonCalls.MayLose, IonLaws.ClientLoses;
      Facts();
      ghost var s := View();
      var c := opens[o];
      opens := opens - {o};
      order := ClientPut(c);
      IonCalls.ReleaseKeeps(s, o, order, kernelLive, dmaLive);
      IonLaws.ReleaseDoes(s, o, order);
    }

    /** ion_alloc; b is the buffer the heaps came up with, h the handle if there is memory for one. */
    method Alloc(c: nat, b: Option<nat>, h: Option<nat>) returns (r: Option<nat>)
      requires Valid() && c in clients && (b.Some? ==> b.value !in born) && (h.Some? ==> h.value !in handles)
      modifies this`buffers, this`handles, this`taken, this`born, this`freed
      ensures Valid() && (old(MapsRight()) ==> MapsRight())
      ensures r == if b.Some? then h else None
      ensures r.Some? ==> View() == IonCalls.Allocated(old(View()), c, b.value, h.value)
      ensures r.None? ==> View() == if b.Some? then IonCalls.AllocUndone(old(View()), b.value) else old(View())
      ensures r.Some? ==>
        && buffers == old(buffers)[b.value := Buffer(1, 0, 0)] && born == old(born) + {b.value} && freed == old(freed)
        && handles == old(handles)[r.value := Handle(1, c, b.value, 0, 0)] && taken == old(taken) + multiset{r.value}
      ensures r.None? ==> buffers == old(buffers) && handles == old(handles) && taken == old(taken)
      ensures r.None? && b.Some? ==> born == old(born) + {b.value} && freed == old(freed) + multiset{b.value}
    {
      hide IonCalls.DeviceRefs, IonCalls.DeviceMaps, IonCalls.NewHandleState, IonRefs.BufferPut;
      Facts();
      ghost var s := View();
      if b.None? {
        return None;
      }
      IonCalls.NewBufferSteps(s, b.value);
      buffers := buffers[b.value := Buffer(1, 0, 0)];
      born := born + {b.value};
      assert View() == s.(buffers := s.buffers[b.value := Buffer(1, 0, 0)], born := s.born + {b.value});
      if h.None? {
        BufferPut(b.value);
        IonCalls.AllocUndoneKeeps(s, b.value, kernelLive, dmaLive);
        return None;
      }
      IonCalls.NewHandleSteps(s, b.value, c, h.value);
      HandleCreate(c, b.value, h.value);
      BufferPut(b.value);
      taken := taken + multiset{h.value};
      IonCalls.AllocKeeps(s, c, b.value, h.value, kernelLive, dmaLive);
      return h;
    }

    /**
      ION_IOC_FREE and ion_free. A handle that is not in the client's tree, be it unknown or another client's, is
      refused. Otherwise a reference is put, and the krefs stay exact if and only if the client had taken one:
      ion.c does not check. The map counts stay right exactly when no mapped handle goes.
     */
    method Free(c: nat, h: nat)
      requires Valid()
      modifies this`buffers, this`handles, this`taken, this`freed
      ensures Valid() <==> (h in old(handles) && old(handles)[h].client == c ==> h in old(taken))
      ensures View() == if h in old(handles) && old(handles)[h].client == c then IonCalls.Freed(old(View()), h)
        else old(View())
      ensures old(MapsRight()) ==>
        (MapsRight() <==> (h in old(handles) && old(handles)[h].client == c ==> IonCalls.MayDrop(old(View()), h)))
      ensures h in old(handles) && old(handles)[h].client == c ==>
        IonLaws.HandleLoses(old(View()), h, View()) && taken == old(taken) - multiset{h}
    {
      hide IonCalls.DeviceRefs, IonCalls.DeviceMaps, IonRefs.HandlePut, IonCalls.MayDrop, IonLaws.HandleLoses;
      if !(h in handles && handles[h].client == c) {
        return;
      }
      Facts();
      IonCalls.FreeKeeps(View(), h, kernelLive, dmaLive);
      IonLaws.FreeDoes(View(), h);
      taken := taken - multiset{h};
      HandlePut(h);
    }

    /** ion_import: the client's handle for the buffer gets one more reference, or a new handle is made. */
    method Import(c: nat, b: nat, spare: Option<nat>) returns (r: Option<nat>)
      requires c in clients && b in buffers && (spare.Some? ==> spare.value !in handles)
      modifies this`buffers, this`handles
      ensures r.None? ==> View() == old(View()) && spare.None? && NoHandleFor(old(View()), c, b)
      ensures r.Some? ==> IonCalls.ImportTarget(old(View()), c, b, r.value) && (r.value in old(handles) || r == spare)
      ensures r.Some? ==> View() == IonCalls.Imported(old(View()), c, b, r.value)
      ensures r.Some? ==> IonLaws.HandleGained(old(View()), c, b, r.value, View())
    {
      if exists h :: h in handles && handles[h].client == c && handles[h].buffer == b {
        var h :| h in handles && handles[h].client == c && handles[h].buffer == b;
        handles := handles[h := handles[h].(ref := handles[h].ref + 1)];
        return Some(h);
      }
      if spare.None? {
        return None;
      }
      HandleCreate(c, b, spare.value);
      return spare;
    }

    /** ion_import_fd: the open share file keeps the buffer alive while it is imported. */
    method ImportFd(c: nat, f: nat, spare: Option<nat>) returns (r: Option<nat>)
      requires Valid() && c in clients && (spare.Some? ==> spare.value !in handles)
      modifies this`buffers, this`handles, this`taken
      ensures Valid() && (old(MapsRight()) ==> MapsRight())
      ensures r.None? ==> View() == old(View()) && (f !in files || (spare.None? && NoHandleFor(View(), c, files[f])))
      ensures r.Some? ==>
        && f in files && IonCalls.ImportTarget(old(View()), c, files[f], r.value)
        && (r.value in old(handles) || r == spare)
        && var t := IonCalls.Imported(old(View()), c, files[f], r.value);
          View() == t.(taken := t.taken + multiset{r.value})
      ensures r.Some? ==>
        IonLaws.HandleGained(old(View()), c, files[f], r.value, View()) && taken == old(taken) + multiset{r.value}
    {
      hide IonCalls.DeviceRefs, IonCalls.DeviceMaps;
      ghost var s := View();
      if f !in files {
        return None;
      }
      Facts();
      r := Import(c, files[f], spare);
      if r.Some? {
        IonCalls.ImportKeeps(s, c, files[f], r.value, kernelLive, dmaLive);
        taken := taken + multiset{r.value};
      }
    }

    /** ion_ioctl_share; f is the file if one can be had. */
    method Share(c: nat, h: nat, f: Option<nat>) returns (r: Option<nat>)
      requires Valid() && (f.Some? ==> f.value !in files)
      modifies this`buffers, this`files
      ensures Valid() && (old(MapsRight()) ==> MapsRight())
      ensures r == if h in handles && handles[h].client == c then f else None
      ensures View() == if r.Some? then IonCalls.Shared(old(View()), r.value, handles[h].buffer) else old(View())
      ensures r.Some? ==>
        && handles[h].buffer in old(buffers) && files == old(files)[r.value := handles[h].buffer]
        && var x := old(buffers)[handles[h].buffer];
          buffers == old(buffers)[handles[h].buffer := Buffer(x.ref + 1, x.kmap, x.dmap)]
    {
      hide IonCalls.DeviceRefs, IonCalls.DeviceMaps;
      Facts();
      if !(h in handles && handles[h].client == c) || f.None? {
        return None;
      }
      IonCalls.ShareKeeps(View(), f.value, handles[h].buffer, kernelLive, dmaLive);
      BufferGet(handles[h].buffer);
      files := files[f.value := handles[h].buffer];
      return f;
    }

    /** ion_share_release */
    method ShareRelease(f: nat)
      requires Valid() && f in files
      modifies this`buffers, this`files, this`freed
      ensures Valid() && (old(MapsRight()) ==> MapsRight()) && View() == IonCalls.ShareReleased(old(View()), f)
      ensures files == old(files) - {f}
      ensures old(files)[f] in old(buffers) && var b, x := old(files)[f], old(buffers)[old(files)[f]];
        if x.ref > 1 then
          buffers == old(buffers)[b := Buffer(x.ref - 1, x.kmap, x.dmap)] && freed == old(freed)
        else
          buffers == old(buffers) - {b} && freed == old(freed) + multiset{b}
    {
      hide IonCalls.DeviceRefs, IonCalls.DeviceMaps, IonRefs.BufferPut;
      Facts();
      IonCalls.ShareReleaseKeeps(View(), f, kernelLive, dmaLive);
      IonLaws.ShareReleaseDoes(View(), f);
      var b := files[f];
      files := files - {f};
      BufferPut(b);
    }

    /**
      ion_share_mmap. The mapping takes a reference to the handle and one to the client; a failure at any
      point gives back what was taken, so that nothing has changed.
     */
    method Mmap(task: Option<nat>, f: nat, v: nat, sizeOk: bool, spare: Option<nat>, heapCanMap: bool, mapOk: bool)
        returns (ok: bool, ghost c: nat, ghost h: nat)
      requires Valid() && f in files && v !in vmas && task.Some? && (spare.Some? ==> spare.value !in handles)
      modifies this`clients, this`handles, this`buffers, this`freed, this`taken, this`vmas
      ensures Valid() && (old(MapsRight()) ==> MapsRight())
      ensures !ok ==> View() == old(View())
      ensures !ok ==>
        NoClientFor(old(View()), task) || !sizeOk || !heapCanMap || !mapOk
          || (spare.None? && NoHandleFor(old(View()), c, files[f]))
      ensures ok ==>
        && sizeOk && heapCanMap && mapOk && c in old(clients) && old(clients)[c].task == task
        && IonCalls.ImportTarget(old(View()), c, files[f], h) && (h in old(handles) || Some(h) == spare)
        && View() == IonCalls.Mmapped(old(View()), c, files[f], h, v)
        && vmas == old(vmas)[v := h] && IonLaws.HandleGained(old(View()), c, files[f], h, View())
        && clients == old(clients)[c := Client(old(clients)[c].ref + 1, task)]
    {
      hide IonCalls.DeviceRefs, IonCalls.DeviceMaps, IonCalls.ImportTarget, IonCalls.AddRefClient, IonCalls.ClientPut;
      hide OneHandlePerBuffer, IonCalls.Mmapped, RefInv, IonLaws.HandleGained;
      Facts();
      ghost var s := View();
      ok, c, h := false, 0, 0;
      var b := files[f];
      if !exists d :: d in clients && clients[d].task == task {
        return;
      }
      var d :| d in clients && clients[d].task == task;
      c := d;
      IonCalls.HasRefs(s);
      ClientGet(d);
      if sizeOk {
        ok, h := MapHandle(s, d, b, v, spare, heapCanMap, mapOk);
      }
      if ok {
        IonCalls.MmapKeeps(s, c, b, h, v, kernelLive, dmaLive);
        IonLaws.MmapDoes(s, c, b, h, v);
        return;
      }
      IonCalls.ClientBack(s, c);
      ghost var order := ClientPut(d);
      IonCalls.ClientPutBack(s, c, order);
    }

    /** The part of ion_share_mmap that holds a reference to the client; s is the device before it was taken. */
    method MapHandle(ghost s: State, c: nat, b: nat, v: nat, spare: Option<nat>, heapCanMap: bool, mapOk: bool)
        returns (ok: bool, ghost h: nat)
      requires RefInv(s) && c in s.clients && b in s.buffers && View() == IonCalls.AddRefClient(s, c)
      requires v !in s.vmas && (spare.Some? ==> spare.value !in s.handles)
      modifies this`handles, this`buffers, this`freed, this`vmas
      ensures !ok ==> View() == old(View()) && (!heapCanMap || !mapOk || (spare.None? && NoHandleFor(s, c, b)))
      ensures ok ==> heapCanMap && mapOk && IonCalls.ImportTarget(s, c, b, h) && (h in s.handles || Some(h) == spare)
      ensures ok ==> View() == IonCalls.Mmapped(s, c, b, h, v)
    {
      hide IonCalls.Imported, IonCalls.ImportTarget, IonCalls.AddRefClient, IonRefs.HandlePut, IonCalls.Mmapped, RefInv;
      h := 0;
      IonCalls.TargetsSame(s, c, b);
      var r := Import(c, b, spare);
      if r.None? {
        return false, h;
      }
      h := r.value;
      IonCalls.TargetsBack(s, c, b, h);
      if heapCanMap && mapOk {
        IonCalls.MmapSteps(s, c, b, h, v);
        vmas := vmas[v := r.value];
        return true, h;
      }
      IonCalls.ImportUndoneLater(s, c, b, h);
      HandlePut(r.value);
      return false, h;
    }

    /** ion_vma_close; the map counts stay right exactly when neither put destroys a mapped handle. */
    method VmaClose(v: nat) returns (ghost order: seq<nat>)
      requires Valid() && v in vmas
      modifies this`vmas, this`clients, this`handles, this`buffers, this`freed, this`taken
      ensures Valid() && old(vmas)[v] in old(handles) && View() == IonCalls.VmaClosed(old(View()), v, order)
      ensures old(MapsRight()) ==>
        (MapsRight() <==>
          IonCalls.MayDrop(old(View()), old(vmas)[v])
            && IonCalls.MayLose(old(View()), old(handles)[old(vmas)[v]].client))
      ensures vmas == old(vmas) - {v}
      ensures IonLaws.MappingLoses(old(View()), old(vmas)[v], View())
    {
      hide IonCalls.DeviceRefs, IonCalls.DeviceMaps, IonRefs.HandlePut, IonCalls.ClientPut, IonCalls.MayDrop;
      hide IonCalls.MayLose, IonLaws.MappingLoses;
      Facts();
      ghost var s := View();
      var h := vmas[v];
      var c := handles[h].client;
      IonCalls.VmaHandlePutKeeps(s, v);
      vmas := vmas - {v};
      HandlePut(h);
      order := ClientPut(c);
      IonCalls.VmaCloseKeeps(s, v, order, kernelLive, dmaLive);
      IonLaws.MappedAlone(s, v);
      IonLaws.VmaCloseDoes(s, v, order);
    }

    /** The checks before _ion_map: the client has the handle, and the heap can map. */
    predicate MayMap(c: nat, h: nat, heapCanMap: bool)
      reads this`handles
    {
      h in handles && handles[h].client == c && heapCanMap
    }

    /** The counts that _ion_map and _ion_unmap are given: the handle's ... */
    function HCount(h: nat, m: Mode): nat
      reads this`handles
    {
      if h in handles then HandleCnt(handles[h], m) else 0
    }

    /** ... and its buffer's. */
    function BCount(h: nat, m: Mode): nat
      reads this`handles, this`buffers
    {
      if h in handles && handles[h].buffer in buffers then BufferCnt(buffers[handles[h].buffer], m) else 0
    }

    /**
      ion_map_kernel and ion_map_dma. The heap maps only a buffer nobody had mapped; if it fails, both counts
      roll back. The BUG_ON of _ion_map is reported as `bug`; it cannot fire while the map counts are right.
     */
    method Map(c: nat, h: nat, m: Mode, heapCanMap: bool, heapOk: bool) returns (bug: bool, ok: bool, heapCalled: bool)
      requires Valid()
      modifies this`buffers, this`handles, this`kernelLive, this`dmaLive
      ensures Valid() && (old(MapsRight()) ==> MapsRight() && !bug)
      ensures bug <==> old(MayMap(c, h, heapCanMap)) && old(HCount(h, m)) != 0 && old(BCount(h, m)) == 0
      ensures heapCalled <==> old(MayMap(c, h, heapCanMap)) && old(HCount(h, m)) == 0 == old(BCount(h, m))
      ensures ok <==> old(MayMap(c, h, heapCanMap)) && !bug && (heapCalled ==> heapOk)
      ensures ok ==>
        && old(handles)[h].buffer in old(buffers) && View() == MapCounted(old(View()), h, m)
        && Live(m) == old(Live(m)) + {old(handles)[h].buffer}
      ensures ok ==> IonLaws.CountsMove(old(View()), h, m, 1, old(HCount(h, m)) == 0, View())
      ensures !(h in old(handles) && old(handles)[h].client == c && heapCanMap) ==> !ok && !bug && !heapCalled
      ensures h in old(handles) && old(handles)[h].client == c && heapCanMap ==> ok || bug || (heapCalled && !heapOk)
      ensures old(MapsRight()) && ok ==> (heapCalled <==> old(handles)[h].buffer !in old(Live(m)))
      ensures !ok ==> View() == old(View()) && Live(m) == old(Live(m))
      ensures Live(Other(m)) == old(Live(Other(m)))
    {
      hide IonCalls.DeviceRefs, IonCalls.DeviceMaps, MapCounted, UnmapCounted, IonLaws.CountsMove;
      Facts();
      if !(h in handles && handles[h].client == c) || !heapCanMap {
        return false, false, false;
      }
      if MapsRight() {
        CountsBacked(h, m);
      }
      if HandleCnt(handles[h], m) != 0 && BufferCnt(buffers[handles[h].buffer], m) == 0 {
        return true, false, false;
      }
      bug := false;
      ok, heapCalled := MapOnce(h, m, heapOk);
    }

    /** A map on which the BUG_ON does not fire. */
    method MapOnce(h: nat, m: Mode, heapOk: bool) returns (ok: bool, heapCalled: bool)
      requires Valid() && h in handles && handles[h].buffer in buffers && (HCount(h, m) != 0 ==> BCount(h, m) != 0)
      modifies this`buffers, this`handles, this`kernelLive, this`dmaLive
      ensures Valid() && (old(MapsRight()) ==> MapsRight())
      ensures heapCalled <==> old(HCount(h, m)) == 0 == old(BCount(h, m))
      ensures ok <==> (heapCalled ==> heapOk)
      ensures ok ==> View() == MapCounted(old(View()), h, m) && Live(m) == old(Live(m)) + {old(handles)[h].buffer}
      ensures ok ==> IonLaws.CountsMove(old(View()), h, m, 1, old(HCount(h, m)) == 0, View())
      ensures !ok ==> View() == old(View()) && Live(m) == old(Live(m))
      ensures Live(Other(m)) == old(Live(Other(m)))
    {
      hide IonCalls.DeviceRefs, IonCalls.DeviceMaps, MapCounted, UnmapCounted, IonLaws.CountsMove;
      ghost var s := View();
      IonLaws.MapDoes(s, h, m);
      var b := handles[h].buffer;
      heapCalled := BufferCnt(buffers[b], m) == 0;
      CountUp(h, m);
      if heapCalled && !heapOk {
        IonCalls.UnmapUndoesMap(s, h, m);
        CountedUp(s, h, m);
        var _ := CountDown(h, m);
        return false, true;
      }
      IonCalls.MapCallKeeps(s, h, m, kernelLive, dmaLive);
      if m.Kernel? {
        kernelLive := kernelLive + {b};
      } else {
        dmaLive := dmaLive + {b};
      }
      return true, heapCalled;
    }

    /**
      ion_unmap_kernel and ion_unmap_dma. The heap unmaps on the last unmap. The two BUG_ONs of _ion_unmap are
      reported as `bug`: the first fires exactly on a handle that is not mapped, the second cannot fire while the
      map counts are right.
     */
    method Unmap(h: nat, m: Mode) returns (bug: bool, heapCalled: bool)
      requires Valid() && h in handles
      modifies this`buffers, this`handles, this`kernelLive, this`dmaLive
      ensures Valid() && (old(MapsRight()) ==> MapsRight())
      ensures bug <==> old(HCount(h, m)) == 0 || (old(HCount(h, m)) == 1 && old(BCount(h, m)) == 0)
      ensures bug && old(MapsRight()) ==> old(HCount(h, m)) == 0
      ensures heapCalled <==> old(HCount(h, m)) == 1 == old(BCount(h, m))
      ensures bug ==>
        View() == if old(HCount(h, m)) == 0 then old(View()) else IonCalls.HalfUnmapped(old(View()), h, m)
      ensures bug ==> h in handles && buffers == old(buffers)
      ensures bug && old(HCount(h, m)) > 0 ==>
        IonLaws.HandleMoves(old(View()), h, if m.Kernel? then -1 else 0, if m.Kernel? then 0 else -1, View())
      ensures !bug ==> old(handles)[h].buffer in old(buffers) && View() == UnmapCounted(old(View()), h, m)
      ensures !bug ==> IonLaws.CountsMove(old(View()), h, m, -1, old(HCount(h, m)) == 1, View())
      ensures Live(m) == if heapCalled then old(Live(m)) - {old(handles)[h].buffer} else old(Live(m))
      ensures Live(Other(m)) == old(Live(Other(m)))
    {
      hide IonCalls.DeviceRefs, IonCalls.DeviceMaps, UnmapCounted, IonCalls.HalfUnmapped, IonLaws.CountsMove;
      Facts();
      if HandleCnt(handles[h], m) == 0 {
        return true, false;
      }
      if MapsRight() {
        CountsBacked(h, m);
      }
      if HandleCnt(handles[h], m) == 1 && BufferCnt(buffers[handles[h].buffer], m) == 0 {
        ghost var s := View();
        IonCalls.HalfUnmapKeeps(s, h, m);
        handles := handles[h := WithHandleCnt(handles[h], m, 0)];
        assert View() == IonCalls.HalfUnmapped(s, h, m) by {
          HalfUnmapIs(s, h, m);
        }
        return true, false;
      }
      heapCalled := UnmapOnce(h, m);
      return false, heapCalled;
    }

    lemma HalfUnmapIs(s: State, h: nat, m: Mode)
      requires h in s.handles
      ensures IonCalls.HalfUnmapped(s, h, m) == s.(handles := s.handles[h := WithHandleCnt(s.handles[h], m, 0)])
    {
    }

    /** An unmap on which no BUG_ON fires. */
    method UnmapOnce(h: nat, m: Mode) returns (heapCalled: bool)
      requires Valid() && h in handles && handles[h].buffer in buffers && HCount(h, m) > 0
      requires HCount(h, m) == 1 ==> BCount(h, m) > 0
      modifies this`buffers, this`handles, this`kernelLive, this`dmaLive
      ensures Valid() && (old(MapsRight()) ==> MapsRight())
      ensures heapCalled <==> old(HCount(h, m)) == 1 == old(BCount(h, m))
      ensures View() == UnmapCounted(old(View()), h, m)
      ensures IonLaws.CountsMove(old(View()), h, m, -1, old(HCount(h, m)) == 1, View())
      ensures Live(m) == if heapCalled then old(Live(m)) - {old(handles)[h].buffer} else old(Live(m))
      ensures Live(Other(m)) == old(Live(Other(m)))
    {
      hide IonCalls.DeviceRefs, IonCalls.DeviceMaps, UnmapCounted, IonLaws.CountsMove;
      ghost var s, b := View(), handles[h].buffer;
      IonLaws.UnmapDoes(s, h, m);
      IonCalls.UnmapCallKeeps(s, h, m, kernelLive, dmaLive);
      if MapsRight() {
        CountsBacked(h, m);
        LastUnmap(s, h, m);
      }
      heapCalled := CountDown(h, m);
      if heapCalled {
        if m.Kernel? {
          kernelLive := kernelLive - {b};
        } else {
          dmaLive := dmaLive - {b};
        }
      } else {
        assert kernelLive - {} == kernelLive && dmaLive - {} == dmaLive;
      }
    }

    lemma LastUnmap(s: State, h: nat, m: Mode)
      requires h in s.handles && s.handles[h].buffer in s.buffers
      requires HandleCnt(s.handles[h], m) > 0 && BufferCnt(s.buffers[s.handles[h].buffer], m) > 0
      ensures var b := s.handles[h].buffer;
        b in UnmapCounted(s, h, m).buffers &&
        (BufferCnt(UnmapCounted(s, h, m).buffers[b], m) == 0 <==>
          HandleCnt(s.handles[h], m) == 1 && BufferCnt(s.buffers[b], m) == 1)
    {
    }

    ghost function Live(m: Mode): set<nat>
      reads this
    {
      if m.Kernel? then kernelLive else dmaLive
    }

    function Other(m: Mode): Mode {
      if m.Kernel? then Dma else Kernel
    }

    /** _ion_map */
    method CountUp(h: nat, m: Mode)
      requires h in handles && handles[h].buffer in buffers
      modifies this`buffers, this`handles
      ensures View() == MapCounted(old(View()), h, m)
    {
      var b := handles[h].buffer;
      if HandleCnt(handles[h], m) == 0 {
        buffers := buffers[b := WithBufferCnt(buffers[b], m, BufferCnt(buffers[b], m) + 1)];
      }
      handles := handles[h := WithHandleCnt(handles[h], m, HandleCnt(handles[h], m) + 1)];
      assert old(buffers)[b := buffers[b]] == buffers;
    }

    /** _ion_unmap; the result says whether the heap has to unmap. */
    method CountDown(h: nat, m: Mode) returns (unmap: bool)
      requires h in handles && handles[h].buffer in buffers
      requires HandleCnt(handles[h], m) > 0
      requires HandleCnt(handles[h], m) == 1 ==> BufferCnt(buffers[handles[h].buffer], m) > 0
      modifies this`buffers, this`handles
      ensures View() == UnmapCounted(old(View()), h, m)
      ensures unmap <==> old(HCount(h, m)) == 1 == old(BCount(h, m))
    {
      var b := handles[h].buffer;
      handles := handles[h := WithHandleCnt(handles[h], m, HandleCnt(handles[h], m) - 1)];
      if HandleCnt(handles[h], m) != 0 {
        assert old(buffers)[b := buffers[b]] == buffers;
        return false;
      }
      buffers := buffers[b := WithBufferCnt(buffers[b], m, BufferCnt(buffers[b], m) - 1)];
      return BufferCnt(buffers[b], m) == 0;
    }

    lemma CountedUp(s: State, h: nat, m: Mode)
      requires h in s.handles && s.handles[h].buffer in s.buffers
      requires HandleCnt(s.handles[h], m) != 0 ==> BufferCnt(s.buffers[s.handles[h].buffer], m) != 0
      ensures var t := MapCounted(s, h, m);
        && h in t.handles && t.handles[h].buffer == s.handles[h].buffer && t.handles[h].buffer in t.buffers
        && HandleCnt(t.handles[h], m) > 0 && BufferCnt(t.buffers[t.handles[h].buffer], m) > 0
    {
    }

    /**
      The BUG_ONs of _ion_map and _ion_unmap on the buffer's count cannot fire, and the heap mapping is in effect
      while anyone maps the buffer.
     */
    lemma CountsBacked(h: nat, m: Mode)
      requires MapsRight() && h in handles && handles[h].buffer in buffers
      ensures HandleCnt(handles[h], m) > 0 ==> BufferCnt(buffers[handles[h].buffer], m) > 0
      ensures handles[h].buffer in Live(m) <==> BufferCnt(buffers[handles[h].buffer], m) > 0
    {
      hide RefInv;
      if HandleCnt(handles[h], m) > 0 {
        MappedHandleMeansMappedBuffer(buffers, handles, m, Live(m), h);
      }
    }
  }

  lemma EmptyingStart(s: State, c: nat)
    requires OneHandlePerBuffer(s.handles)
    requires forall h :: h in s.handles && s.handles[h].client == c ==> s.handles[h].buffer in s.buffers
    ensures Emptying(s, s, c, [])
  {
  }

  lemma EmptyingNext(s: State, t: State, c: nat, order: seq<nat>, h: nat)
    requires Emptying(s, t, c, order) && h in t.handles && t.handles[h].client == c
    ensures t.handles[h].buffer in t.buffers && HandleDestroy(t, h).handles == t.handles - {h}
    ensures var u := HandleDestroy(t, h); Emptying(s, u.(taken := u.taken[h := 0]), c, order + [h])
  {
    OthersKeepBuffers(t, h, c);
    hide HandleDestroy;
    assert (order + [h])[..|order|] == order;
  }

  lemma EmptyingDone(s: State, t: State, c: nat, order: seq<nat>)
    requires Emptying(s, t, c, order) && forall h :: h in t.handles ==> t.handles[h].client != c
    ensures t == IonCalls.HandlesDestroyed(s, order) && IonCalls.HandleOrder(s, c, order)
  {
  }

  /** A client's other handles refer to other buffers, which therefore stay alive. */
  lemma OthersKeepBuffers(s: State, h: nat, c: nat)
    requires OneHandlePerBuffer(s.handles) && h in s.handles && s.handles[h].client == c
    requires forall k :: k in s.handles && s.handles[k].client == c ==> s.handles[k].buffer in s.buffers
    ensures var t := HandleDestroy(s, h);
      && t.handles == s.handles - {h} && t.clients == s.clients && t.taken == s.taken
      && OneHandlePerBuffer(t.handles)
      && forall k :: k in t.handles && t.handles[k].client == c ==> t.handles[k].buffer in t.buffers
  {
  }
}
