/**
  Histories of the ion device: a buffer made by one client is handed to another and freed, a handle is destroyed
  while it is mapped, and a handle is freed once too often.
 */
module IonScenarios {
  import opened IonRefs
  import opened IonRuns
  import opened Options
  import opened IonCalls
  import opened IonDevices

  /** A device between calls, with no user mappings. */
  function Now(buffers: map<nat, Buffer>, handles: map<nat, Handle>, clients: map<nat, Client>, files: map<nat, nat>,
               opens: map<nat, nat>, taken: multiset<nat>, born: set<nat>, freed: multiset<nat>): State {
    State(buffers, handles, clients, files, map[], opens, taken, multiset{}, multiset{}, multiset{}, born, freed)
  }

  function Clients(maker: nat, taker: nat): map<nat, Client> {
    map[maker := Client(1, Some(maker)), taker := Client(1, Some(taker))]
  }

  function Opens(maker: nat, taker: nat): map<nat, nat> {
    map[maker := maker, taker := taker]
  }

  lemma OpensSteps(maker: nat, taker: nat)
    requires maker != taker
    ensures Opened(Initial(), maker, maker, Some(maker)) ==
      Now(map[], map[], map[maker := Client(1, Some(maker))], map[], map[maker := maker], multiset{}, {}, multiset{})
    ensures Opened(Opened(Initial(), maker, maker, Some(maker)), taker, taker, Some(taker)) ==
      Now(map[], map[], Clients(maker, taker), map[], Opens(maker, taker), multiset{}, {}, multiset{})
  {
  }

  lemma MakerSteps(cs: map<nat, Client>, os: map<nat, nat>, maker: nat, b: nat, h: nat, f: nat)
    ensures var s0 := Now(map[], map[], cs, map[], os, multiset{}, {}, multiset{});
      var s1 := Now(map[b := Buffer(1, 0, 0)], map[h := Handle(1, maker, b, 0, 0)], cs, map[],
        os, multiset{h}, {b}, multiset{});
      var s2 := Now(map[b := Buffer(2, 0, 0)], map[h := Handle(1, maker, b, 0, 0)], cs,
        map[f := b], os, multiset{h}, {b}, multiset{});
      var s3 := Now(map[b := Buffer(1, 0, 0)], map[], cs, map[f := b], os, multiset{}, {b}, multiset{});
      Allocated(s0, maker, b, h) == s1 && Shared(s1, f, b) == s2 && Freed(s2, h) == s3
  {
    assert multiset{h} - multiset{h} == multiset{};
    assert map[h := Handle(1, maker, b, 0, 0)] - {h} == map[];
  }

  lemma TakerSteps(cs: map<nat, Client>, os: map<nat, nat>, taker: nat, b: nat, k: nat, f: nat)
    ensures var s3 := Now(map[b := Buffer(1, 0, 0)], map[], cs, map[f := b], os, multiset{}, {b}, multiset{});
      var s4 := Now(map[b := Buffer(2, 0, 0)], map[k := Handle(1, taker, b, 0, 0)], cs,
        map[f := b], os, multiset{k}, {b}, multiset{});
      var s5 := Now(map[b := Buffer(1, 0, 0)], map[k := Handle(1, taker, b, 0, 0)], cs, map[],
        os, multiset{k}, {b}, multiset{});
      var s6 := Now(map[], map[], cs, map[], os, multiset{}, {b}, multiset{b});
      var t := Imported(s3, taker, b, k);
      && t.(taken := t.taken + multiset{k}) == s4 && ShareReleased(s4, f) == s5 && Freed(s5, k) == s6
  {
    assert multiset{k} - multiset{k} == multiset{};
    assert map[k := Handle(1, taker, b, 0, 0)] - {k} == map[];
    assert map[f := b] - {f} == map[];
    assert map[b := Buffer(1, 0, 0)] - {b} == map[];
  }

  method MakerShares(d: IonDevice, ghost cs: map<nat, Client>, ghost os: map<nat, nat>, maker: nat, b: nat, h: nat,
                     f: nat)
    requires d.Valid() && d.View() == Now(map[], map[], cs, map[], os, multiset{}, {}, multiset{}) && maker in cs
    modifies d
    ensures d.Valid()
    ensures d.View() == Now(map[b := Buffer(1, 0, 0)], map[], cs, map[f := b], os, multiset{}, {b}, multiset{})
  {
    hide DeviceRefs, DeviceMaps, Allocated, Shared, Freed;
    MakerSteps(cs, os, maker, b, h, f);
    var r := d.Alloc(maker, Some(b), Some(h));
    r := d.Share(maker, h, Some(f));
    assert d.View().taken == multiset{h};
    d.Free(maker, h);
  }

  method TakerFrees(d: IonDevice, ghost cs: map<nat, Client>, ghost os: map<nat, nat>, taker: nat, b: nat, k: nat,
                    f: nat)
    requires d.Valid() && taker in cs
    requires d.View() == Now(map[b := Buffer(1, 0, 0)], map[], cs, map[f := b], os, multiset{}, {b}, multiset{})
    modifies d
    ensures d.Valid() && d.View() == Now(map[], map[], cs, map[], os, multiset{}, {b}, multiset{b})
  {
    hide DeviceRefs, DeviceMaps, Freed, Imported, ShareReleased;
    TakerSteps(cs, os, taker, b, k, f);
    var r := d.ImportFd(taker, f, Some(k));
    assert r == Some(k) && d.View().taken == multiset{k};
    d.ShareRelease(f);
    d.Free(taker, k);
  }

  /**
    The buffer outlives its maker's handle while a share file holds it, moves to the second client, and is freed
    once, when that client is done.
   */
  method BufferChangesHands(maker: nat, taker: nat, b: nat, h: nat, k: nat, f: nat) returns (d: IonDevice)
    requires maker != taker
    ensures fresh(d) && d.Valid()
    ensures d.buffers == map[] && d.handles == map[] && d.freed == multiset{b}
  {
    hide DeviceRefs, DeviceMaps, Opened;
    ghost var cs, os := Clients(maker, taker), Opens(maker, taker);
    OpensSteps(maker, taker);
    d := new IonDevice();
    var c := d.Open(Some(maker), Some(maker), maker);
    assert c == Some(maker) && d.View().clients == map[maker := Client(1, Some(maker))];
    c := d.Open(Some(taker), Some(taker), taker);
    assert c == Some(taker);
    MakerShares(d, cs, os, maker, b, h, f);
    assert b in d.buffers && d.handles == map[];
    TakerFrees(d, cs, os, taker, b, k, f);
  }

  function OneHandle(c: nat, b: nat, h: nat, kmap: nat): State {
    Now(map[b := Buffer(1, kmap, 0)], map[h := Handle(1, c, b, kmap, 0)], map[c := Client(1, Some(c))], map[],
        map[c := c], multiset{h}, {b}, multiset{})
  }

  lemma MappedSteps(c: nat, b: nat, h: nat)
    ensures Allocated(Opened(Initial(), c, c, Some(c)), c, b, h) == OneHandle(c, b, h, 0)
    ensures MapCounted(OneHandle(c, b, h, 0), h, Kernel) == OneHandle(c, b, h, 1)
  {
  }

  lemma MappedLost(c: nat, b: nat, h: nat)
    ensures !MayDrop(OneHandle(c, b, h, 1), h)
    ensures var t := Freed(OneHandle(c, b, h, 1), h); t.handles == map[] && t.buffers == map[]
  {
    assert map[h := Handle(1, c, b, 1, 0)] - {h} == map[];
  }

  method HandleMapped(c: nat, b: nat, h: nat) returns (d: IonDevice)
    ensures fresh(d) && d.Valid() && d.MapsRight() && d.View() == OneHandle(c, b, h, 1) && d.kernelLive == {b}
  {
    hide DeviceRefs, DeviceMaps, Opened, Allocated, MapCounted;
    MappedSteps(c, b, h);
    d := new IonDevice();
    var r := d.Open(Some(c), Some(c), c);
    assert c in d.View().clients by {
      OpenedHas(c);
    }
    r := d.Alloc(c, Some(b), Some(h));
    var bug, ok, called := d.Map(c, h, Kernel, true, true);
    assert d.Live(Kernel) == {b};
  }

  lemma OpenedHas(c: nat)
    ensures c in Opened(Initial(), c, c, Some(c)).clients
  {
  }

  /**
    A reachable state in which the map counts are wrong: the only reference to a handle is given back while
    the kernel still has the handle mapped. The krefs are right even then.
   */
  method MappedHandleDestroyed(c: nat, b: nat, h: nat) returns (d: IonDevice)
    ensures fresh(d) && d.Valid() && !d.MapsRight()
    ensures d.buffers == map[] && d.handles == map[] && d.kernelLive == {b}
  {
    hide DeviceRefs, DeviceMaps, Freed, MayDrop;
    MappedLost(c, b, h);
    d := HandleMapped(c, b, h);
    assert d.View().handles == map[h := Handle(1, c, b, 1, 0)] && d.View().taken == multiset{h};
    d.Free(c, h);
    assert d.View().handles == map[] && d.View().buffers == map[];
  }

  /** A shared buffer with one handle, and a user mapping if v is given; refs counts the handle's references. */
  function SharedHandle(c: nat, b: nat, h: nat, f: nat, v: Option<nat>, refs: nat, taken: multiset<nat>): State {
    State(map[b := Buffer(2, 0, 0)], map[h := Handle(refs, c, b, 0, 0)],
          map[c := Client(if v.Some? then 2 else 1, Some(c))], map[f := b], if v.Some? then map[v.value := h]
            else map[],
          map[c := c], taken, multiset{}, multiset{}, multiset{}, {b}, multiset{})
  }

  lemma SharingSteps(c: nat, b: nat, h: nat, f: nat, v: nat)
    ensures Shared(OneHandle(c, b, h, 0), f, b) == SharedHandle(c, b, h, f, None, 1, multiset{h})
    ensures Mmapped(SharedHandle(c, b, h, f, None, 1, multiset{h}), c, b, h, v) ==
      SharedHandle(c, b, h, f, Some(v), 2, multiset{h})
  {
  }

  lemma FreeingSteps(c: nat, b: nat, h: nat, f: nat, v: nat)
    ensures Freed(SharedHandle(c, b, h, f, Some(v), 2, multiset{h}), h) ==
      SharedHandle(c, b, h, f, Some(v), 1, multiset{})
    ensures var t := Freed(SharedHandle(c, b, h, f, Some(v), 1, multiset{}), h);
      t.handles == map[] && t.vmas == map[v := h]
  {
    assert multiset{h} - multiset{h} == multiset{};
    assert map[h := Handle(1, c, b, 0, 0)] - {h} == map[];
  }

  method HandleShared(c: nat, b: nat, h: nat, f: nat) returns (d: IonDevice)
    ensures fresh(d) && d.Valid() && d.View() == SharedHandle(c, b, h, f, None, 1, multiset{h})
  {
    hide DeviceRefs, DeviceMaps, Opened, Allocated, Shared;
    MappedSteps(c, b, h);
    SharingSteps(c, b, h, f, 0);
    d := new IonDevice();
    var r := d.Open(Some(c), Some(c), c);
    assert c in d.View().clients by {
      OpenedHas(c);
    }
    r := d.Alloc(c, Some(b), Some(h));
    assert d.View().handles == map[h := Handle(1, c, b, 0, 0)];
    r := d.Share(c, h, Some(f));
  }

  method HandleMmapped(c: nat, b: nat, h: nat, f: nat, v: nat) returns (d: IonDevice)
    ensures fresh(d) && d.Valid() && d.View() == SharedHandle(c, b, h, f, Some(v), 2, multiset{h})
  {
    hide DeviceRefs, DeviceMaps, Mmapped;
    SharingSteps(c, b, h, f, v);
    d := HandleShared(c, b, h, f);
    ghost var s := d.View();
    assert s.handles == map[h := Handle(1, c, b, 0, 0)] && s.clients == map[c := Client(1, Some(c))];
    assert s.clients[c].task == Some(c) && s.handles[h].client == c && s.handles[h].buffer == b;
    var ok, c', h' := d.Mmap(Some(c), f, v, true, Some(h + 1), true, true);
  }

  /**
    A reachable state in which the krefs are wrong: ion_free does not check that the client has a reference left,
    and the second call takes away the user mapping's, so that the mapping leads to a handle that is gone.
   */
  method HandleFreedTwice(c: nat, b: nat, h: nat, f: nat, v: nat) returns (d: IonDevice)
    ensures fresh(d) && !d.Valid() && d.vmas == map[v := h] && d.handles == map[]
  {
    hide DeviceRefs, DeviceMaps, Freed;
    FreeingSteps(c, b, h, f, v);
    d := HandleMmapped(c, b, h, f, v);
    assert d.View().handles == map[h := Handle(2, c, b, 0, 0)] && d.View().taken == multiset{h};
    d.Free(c, h);
    assert d.View().handles == map[h := Handle(1, c, b, 0, 0)] && d.View().taken == multiset{};
    d.Free(c, h);
    assert d.View().handles == map[] && d.View().vmas == map[v := h];
  }
}
