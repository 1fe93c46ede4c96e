/**
  The calls of ion.c object by object: which reference counts move by one, which objects appear, and which go.
  What is not mentioned does not change.
 */
module IonLaws {
  import opened IonRefs
  import opened Options
  import opened IonCalls

  /** One reference to buffer b is put: it has one less, or it is gone and freed once more. */
  ghost predicate BufferLoses(buffers: map<nat, Buffer>, freed: multiset<nat>, b: nat,
                              buffers': map<nat, Buffer>, freed': multiset<nat>) {
    && b in buffers
    && if buffers[b].ref > 1 then
         buffers' == buffers[b := Buffer(buffers[b].ref - 1, buffers[b].kmap, buffers[b].dmap)] && freed' == freed
       else
         buffers' == buffers - {b} && freed' == freed + multiset{b}
  }

  lemma BufferPutDoes(s: State, b: nat)
    requires b in s.buffers
    ensures BufferLoses(s.buffers, s.freed, b, BufferPut(s, b).buffers, BufferPut(s, b).freed)
  {
  }

  lemma ShareReleaseDoes(s: State, f: nat)
    requires f in s.files && s.files[f] in s.buffers
    ensures var t := ShareReleased(s, f);
      && t.files == s.files - {f} && BufferLoses(s.buffers, s.freed, s.files[f], t.buffers, t.freed)
  {
  }

  /** One reference to handle h is put: it has one less, or it is gone and its buffer loses a reference. */
  ghost predicate HandleLoses(s: State, h: nat, t: State) {
    && h in s.handles
    && var x := s.handles[h];
      if x.ref > 1 then
        && t.handles == s.handles[h := Handle(x.ref - 1, x.client, x.buffer, x.kmap, x.dmap)]
        && t.buffers == s.buffers && t.freed == s.freed
      else
        t.handles == s.handles - {h} && BufferLoses(s.buffers, s.freed, x.buffer, t.buffers, t.freed)
  }

  lemma HandlePutDoes(s: State, h: nat)
    requires h in s.handles && s.handles[h].buffer in s.buffers
    ensures HandleLoses(s, h, HandlePut(s, h)) && HandlePut(s, h).taken == s.taken
  {
  }

  lemma FreeDoes(s: State, h: nat)
    requires h in s.handles && s.handles[h].buffer in s.buffers
    ensures HandleLoses(s, h, Freed(s, h)) && Freed(s, h).taken == s.taken - multiset{h}
  {
  }

  /** The new reference of client c to buffer b: its handle for b has one more, or a new handle holds the buffer. */
  ghost predicate HandleGained(s: State, c: nat, b: nat, h: nat, t: State) {
    && b in s.buffers
    && if h in s.handles then
         && s.handles[h].client == c && s.handles[h].buffer == b && t.buffers == s.buffers
         && var x := s.handles[h]; t.handles == s.handles[h := Handle(x.ref + 1, c, b, x.kmap, x.dmap)]
       else
         && t.handles == s.handles[h := Handle(1, c, b, 0, 0)]
         && t.buffers == s.buffers[b := Buffer(s.buffers[b].ref + 1, s.buffers[b].kmap, s.buffers[b].dmap)]
  }

  lemma ImportDoes(s: State, c: nat, b: nat, h: nat)
    requires b in s.buffers && ImportTarget(s, c, b, h)
    ensures HandleGained(s, c, b, h, Imported(s, c, b, h))
  {
  }

  lemma MmapDoes(s: State, c: nat, b: nat, h: nat, v: nat)
    requires b in s.buffers && c in s.clients && ImportTarget(s, c, b, h)
    ensures var t := Mmapped(s, c, b, h, v);
      && HandleGained(s, c, b, h, t) && t.vmas == s.vmas[v := h]
      && t.clients == s.clients[c := Client(s.clients[c].ref + 1, s.clients[c].task)]
  {
  }

  /** The clients after an open: this one has one reference more, or is new. */
  function ClientGained(clients: map<nat, Client>, c: nat, task: Option<nat>): map<nat, Client> {
    clients[c := if c in clients then Client(clients[c].ref + 1, clients[c].task) else Client(1, task)]
  }

  lemma RefAdded(s: State, c: nat)
    requires c in s.clients
    ensures AddRefClient(s, c).opens == s.opens
    ensures AddRefClient(s, c).clients == s.clients[c := Client(s.clients[c].ref + 1, s.clients[c].task)]
  {
  }

  lemma ClientAdded(s: State, c: nat, task: Option<nat>)
    ensures NewClientState(s, c, task).opens == s.opens
    ensures NewClientState(s, c, task).clients == s.clients[c := Client(1, task)]
  {
  }

  lemma OpenDoes(s: State, c: nat, o: nat, task: Option<nat>)
    ensures var t := Opened(s, c, o, task);
      t.opens == s.opens[o := c] && t.clients == ClientGained(s.clients, c, task)
  {
    hide AddRefClient, NewClientState;
    if c in s.clients {
      RefAdded(s, c);
    } else {
      ClientAdded(s, c, task);
    }
  }

  lemma AllocDoes(s: State, c: nat, b: nat, h: nat)
    ensures var t := Allocated(s, c, b, h);
      && t.buffers == s.buffers[b := Buffer(1, 0, 0)] && t.handles == s.handles[h := Handle(1, c, b, 0, 0)]
      && t.taken == s.taken + multiset{h} && t.born == s.born + {b} && t.freed == s.freed
    ensures var t := AllocUndone(s, b);
      && t.buffers == s.buffers && t.handles == s.handles && t.taken == s.taken
      && t.born == s.born + {b} && t.freed == s.freed + multiset{b}
  {
  }

  lemma ShareDoes(s: State, f: nat, b: nat)
    requires b in s.buffers
    ensures var t := Shared(s, f, b);
      && t.files == s.files[f := b]
      && t.buffers == s.buffers[b := Buffer(s.buffers[b].ref + 1, s.buffers[b].kmap, s.buffers[b].dmap)]
  {
  }

  /** Handle h has k more kernel maps and n more dma maps. */
  predicate HandleMoves(s: State, h: nat, k: int, n: int, t: State)
    requires h in s.handles && h in t.handles
  {
    var x, y := s.handles[h], t.handles[h];
    && t.handles == s.handles[h := y] && y.ref == x.ref && y.client == x.client && y.buffer == x.buffer
    && y.kmap == x.kmap + k && y.dmap == x.dmap + n
  }

  predicate BufferMoves(s: State, b: nat, k: int, n: int, t: State)
    requires b in s.buffers && b in t.buffers
  {
    var x, y := s.buffers[b], t.buffers[b];
    t.buffers == s.buffers[b := y] && y.ref == x.ref && y.kmap == x.kmap + k && y.dmap == x.dmap + n
  }

  /** The counts of handle h in mode m move by d; its buffer's move with them when the handle's begin or end. */
  ghost predicate CountsMove(s: State, h: nat, m: Mode, d: int, edge: bool, t: State) {
    && h in s.handles && s.handles[h].buffer in s.buffers && h in t.handles && s.handles[h].buffer in t.buffers
    && var k, n := if m.Kernel? then d else 0, if m.Kernel? then 0 else d;
      HandleMoves(s, h, k, n, t)
      && BufferMoves(s, s.handles[h].buffer, if edge then k else 0, if edge then n else 0, t)
  }

  lemma MapDoes(s: State, h: nat, m: Mode)
    requires h in s.handles && s.handles[h].buffer in s.buffers
    ensures CountsMove(s, h, m, 1, HandleCnt(s.handles[h], m) == 0, MapCounted(s, h, m))
  {
  }

  lemma UnmapDoes(s: State, h: nat, m: Mode)
    requires h in s.handles && s.handles[h].buffer in s.buffers && HandleCnt(s.handles[h], m) > 0
    requires HandleCnt(s.handles[h], m) == 1 ==> BufferCnt(s.buffers[s.handles[h].buffer], m) > 0
    ensures CountsMove(s, h, m, -1, HandleCnt(s.handles[h], m) == 1, UnmapCounted(s, h, m))
  {
  }

  // ----- a client that goes -----

  /** Client c has a handle for buffer b among those in hs. */
  ghost predicate Uses(s: State, hs: set<nat>, b: nat) {
    exists h :: h in hs && h in s.handles && s.handles[h].buffer == b
  }

  ghost predicate BuffersLeft(s: State, hs: set<nat>, t: State) {
    && (forall b :: b in t.buffers <==> b in s.buffers && !(s.buffers[b].ref <= 1 && Uses(s, hs, b)))
    && (forall b :: b in t.buffers ==>
          && t.buffers[b].kmap == s.buffers[b].kmap && t.buffers[b].dmap == s.buffers[b].dmap
          && t.buffers[b].ref == s.buffers[b].ref - if Uses(s, hs, b) then 1 else 0)
    && (forall b :: t.freed[b] == s.freed[b] + if b in s.buffers && b !in t.buffers then 1 else 0)
  }

  /** The handles in hs are gone, each with one reference to its buffer; a buffer without another is freed. */
  ghost predicate HandlesGone(s: State, hs: set<nat>, t: State) {
    && t.handles == s.handles - hs && (forall h :: t.taken[h] == if h in hs then 0 else s.taken[h])
    && BuffersLeft(s, hs, t)
  }

  /** All handles of client c are gone. */
  ghost function HandlesOfClient(s: State, c: nat): set<nat> {
    set h | h in s.handles && s.handles[h].client == c
  }

  lemma UsesOneMore(s: State, hs: set<nat>, h: nat, b: nat)
    requires h in s.handles
    ensures Uses(s, hs + {h}, b) <==> Uses(s, hs, b) || b == s.handles[h].buffer
  {
    if Uses(s, hs, b) {
      var k :| k in hs && k in s.handles && s.handles[k].buffer == b;
      assert k in hs + {h};
    }
    if b == s.handles[h].buffer {
      assert h in hs + {h};
    }
  }

  lemma OneMoreGone(s: State, hs: set<nat>, t: State, h: nat)
    requires HandlesGone(s, hs, t) && h in s.handles && h !in hs && s.handles[h].buffer in s.buffers
    requires !Uses(s, hs, s.handles[h].buffer)
    ensures var u := HandleDestroy(t, h); HandlesGone(s, hs + {h}, u.(taken := u.taken[h := 0]))
  {
    hide Uses;
    forall b: nat
      ensures Uses(s, hs + {h}, b) <==> Uses(s, hs, b) || b == s.handles[h].buffer
    {
      UsesOneMore(s, hs, h, b);
    }
    assert s.handles - hs - {h} == s.handles - (hs + {h});
  }

  /** A client's handles have buffers of their own. */
  lemma OwnBuffer(s: State, c: nat, hs: set<nat>, h: nat)
    requires OneHandlePerBuffer(s.handles) && h in s.handles && s.handles[h].client == c && h !in hs
    requires forall k :: k in hs ==> k in s.handles && s.handles[k].client == c
    ensures !Uses(s, hs, s.handles[h].buffer)
  {
  }

  lemma NoneGone(s: State)
    ensures HandlesGone(s, {}, s)
  {
    assert s.handles - {} == s.handles;
  }

  ghost function Members(order: seq<nat>): set<nat> {
    set h | h in order
  }

  lemma MembersLast(order: seq<nat>)
    requires order != [] && forall i, j :: 0 <= i < j < |order| ==> order[i] != order[j]
    ensures var n := |order| - 1; order[n] !in Members(order[..n]) && Members(order) == Members(order[..n]) + {order[n]}
  {
    assert order == order[..|order| - 1] + [order[|order| - 1]];
  }

  lemma {:induction false} DestroyedAreGone(s: State, c: nat, order: seq<nat>)
    requires OneHandlePerBuffer(s.handles)
    requires forall h :: h in order ==> h in s.handles && s.handles[h].client == c && s.handles[h].buffer in s.buffers
    requires forall i, j :: 0 <= i < j < |order| ==> order[i] != order[j]
    ensures HandlesGone(s, Members(order), HandlesDestroyed(s, order))
  {
    hide HandlesGone, HandleDestroy, OneHandlePerBuffer, Uses;
    if order == [] {
      assert Members(order) == {} && HandlesDestroyed(s, order) == s;
      NoneGone(s);
      assert HandlesGone(s, Members(order), s);
    } else {
      var n := |order| - 1;
      DestroyedAreGone(s, c, order[..n]);
      MembersLast(order);
      OwnBuffer(s, c, Members(order[..n]), order[n]);
      HandleDestroyFrame(HandlesDestroyed(s, order[..n]), order[n]);
      OneMoreGone(s, Members(order[..n]), HandlesDestroyed(s, order[..n]), order[n]);
    }
  }

  /** One reference to client c is put: it has one less, or it is gone with all its handles. */
  ghost predicate ClientLoses(s: State, c: nat, t: State) {
    && c in s.clients
    && if s.clients[c].ref > 1 then
         && t.clients == s.clients[c := Client(s.clients[c].ref - 1, s.clients[c].task)]
         && t.handles == s.handles && t.buffers == s.buffers && t.freed == s.freed && t.taken == s.taken
       else
         t.clients == s.clients - {c} && HandlesGone(s, HandlesOfClient(s, c), t)
  }

  lemma ClientPutDoes(s: State, c: nat, order: seq<nat>)
    requires c in s.clients && OrderedIfLast(s, c, order) && OneHandlePerBuffer(s.handles)
    requires forall h :: h in s.handles ==> s.handles[h].buffer in s.buffers
    ensures ClientLoses(s, c, ClientPut(s, c, order))
  {
    hide HandlesGone, HandlesDestroyed, OneHandlePerBuffer;
    if s.clients[c].ref <= 1 {
      DestroyedAreGone(s, c, order);
      assert Members(order) == HandlesOfClient(s, c);
      DestroyedClients(s, order);
      GoneIgnoresClients(s, Members(order), HandlesDestroyed(s, order));
    }
  }

  lemma GoneIgnoresClients(s: State, hs: set<nat>, t: State)
    requires HandlesGone(s, hs, t)
    ensures forall clients :: HandlesGone(s, hs, t.(clients := clients))
  {
  }

  lemma {:induction false} DestroyedClients(s: State, order: seq<nat>)
    ensures var t := HandlesDestroyed(s, order); t.clients == s.clients && t.vmas == s.vmas && t.opens == s.opens
  {
    hide HandleDestroy;
    if order != [] {
      DestroyedClients(s, order[..|order| - 1]);
      HandleDestroyFrame(HandlesDestroyed(s, order[..|order| - 1]), order[|order| - 1]);
    }
  }

  lemma ClientPutFrame(s: State, c: nat, order: seq<nat>)
    ensures ClientPut(s, c, order).opens == s.opens && ClientPut(s, c, order).vmas == s.vmas
  {
    hide HandlesDestroyed;
    DestroyedClients(s, order);
  }

  lemma LosesIgnoresOpens(s: State, u: State, c: nat, t: State)
    requires ClientLoses(u, c, t) && u.(opens := s.opens, vmas := s.vmas) == s
    ensures ClientLoses(s, c, t)
  {
    GoneSame(s, u, HandlesOfClient(u, c), t);
  }

  lemma GoneSame(s: State, u: State, hs: set<nat>, t: State)
    requires s.handles == u.handles && s.buffers == u.buffers && s.freed == u.freed && s.taken == u.taken
    ensures HandlesGone(u, hs, t) ==> HandlesGone(s, hs, t)
  {
    assert forall b :: Uses(u, hs, b) <==> Uses(s, hs, b);
  }

  lemma ReleaseDoes(s: State, o: nat, order: seq<nat>)
    requires o in s.opens && s.opens[o] in s.clients && OrderedIfLast(s, s.opens[o], order)
    requires OneHandlePerBuffer(s.handles) && forall h :: h in s.handles ==> s.handles[h].buffer in s.buffers
    ensures var t := Released(s, o, order);
      t.opens == s.opens - {o} && ClientLoses(s, s.opens[o], t)
  {
    hide ClientPut, ClientLoses, OneHandlePerBuffer;
    var u := s.(opens := s.opens - {o});
    ClientPutDoes(u, s.opens[o], order);
    ClientPutFrame(u, s.opens[o], order);
    LosesIgnoresOpens(s, u, s.opens[o], ClientPut(u, s.opens[o], order));
  }

  /** Two groups of handles with buffers of their own go one after the other. */
  lemma GoneTwice(s: State, hs: set<nat>, u: State, gs: set<nat>, t: State)
    requires HandlesGone(s, hs, u) && HandlesGone(u, gs, t) && hs !! gs
    requires forall b :: !(Uses(s, hs, b) && Uses(s, gs, b))
    ensures HandlesGone(s, hs + gs, t)
  {
    UsesBoth(s, hs, u, gs);
    hide Uses;
    LeftTwice(s, hs, u, gs, t);
    hide BuffersLeft;
    assert s.handles - hs - gs == s.handles - (hs + gs);
  }

  lemma LeftTwice(s: State, hs: set<nat>, u: State, gs: set<nat>, t: State)
    requires BuffersLeft(s, hs, u) && BuffersLeft(u, gs, t)
    requires forall b :: !(Uses(s, hs, b) && Uses(s, gs, b))
    requires forall b :: Uses(u, gs, b) <==> Uses(s, gs, b)
    requires forall b :: Uses(s, hs + gs, b) <==> Uses(s, hs, b) || Uses(s, gs, b)
    ensures BuffersLeft(s, hs + gs, t)
  {
    hide Uses;
  }

  lemma UsesBoth(s: State, hs: set<nat>, u: State, gs: set<nat>)
    requires u.handles == s.handles - hs && hs !! gs
    ensures forall b :: Uses(u, gs, b) <==> Uses(s, gs, b)
    ensures forall b :: Uses(s, hs + gs, b) <==> Uses(s, hs, b) || Uses(s, gs, b)
  {
    forall b: nat
      ensures Uses(u, gs, b) <==> Uses(s, gs, b)
      ensures Uses(s, hs + gs, b) <==> Uses(s, hs, b) || Uses(s, gs, b)
    {
      if Uses(s, gs, b) {
        var k :| k in gs && k in s.handles && s.handles[k].buffer == b;
        assert k in u.handles && k in hs + gs;
      }
      if Uses(s, hs, b) {
        var k :| k in hs && k in s.handles && s.handles[k].buffer == b;
        assert k in hs + gs;
      }
    }
  }

  lemma OneGone(s: State, h: nat)
    requires h in s.handles && s.handles[h].buffer in s.buffers && s.taken[h] == 0
    ensures HandlesGone(s, {h}, HandleDestroy(s, h))
  {
    NoneGone(s);
    OneMoreGone(s, {}, s, h);
    var u := HandleDestroy(s, h);
    assert u.taken[h := 0] == u.taken && {} + {h} == {h};
  }

  /** What goes with a client whose handle h has just lost a reference goes with the client as it was before. */
  lemma GoneAfterPut(s: State, h: nat, c: nat, t: State)
    requires h in s.handles && s.handles[h].client == c && s.handles[h].buffer in s.buffers
    requires OneHandlePerBuffer(s.handles) && (s.handles[h].ref <= 1 ==> s.taken[h] == 0)
    requires HandlesGone(HandlePut(s, h), HandlesOfClient(HandlePut(s, h), c), t)
    ensures HandlesGone(s, HandlesOfClient(s, c), t)
  {
    hide HandleDestroy, HandlesGone, OneHandlePerBuffer;
    if s.handles[h].ref <= 1 {
      GoneAfterLastPut(s, h, c, t);
    } else {
      GoneAfterPutDown(s, h, c, t);
    }
  }

  lemma GoneAfterLastPut(s: State, h: nat, c: nat, t: State)
    requires h in s.handles && s.handles[h].client == c && s.handles[h].buffer in s.buffers
    requires OneHandlePerBuffer(s.handles) && s.taken[h] == 0
    requires HandlesGone(HandleDestroy(s, h), HandlesOfClient(HandleDestroy(s, h), c), t)
    ensures HandlesGone(s, HandlesOfClient(s, c), t)
  {
    var u := HandleDestroy(s, h);
    var gs := HandlesOfClient(u, c);
    OneGone(s, h);
    HandleDestroyFrame(s, h);
    hide HandleDestroy, HandlesGone;
    assert HandlesOfClient(s, c) == {h} + gs;
    OwnBuffer(s, c, gs, h);
    hide OneHandlePerBuffer;
    GoneTwice(s, {h}, u, gs, t);
  }

  lemma GoneAfterPutDown(s: State, h: nat, c: nat, t: State)
    requires h in s.handles && s.handles[h].client == c && s.handles[h].ref > 1
    requires var u := s.(handles := s.handles[h := s.handles[h].(ref := s.handles[h].ref - 1)]);
      HandlesGone(u, HandlesOfClient(u, c), t)
    ensures HandlesGone(s, HandlesOfClient(s, c), t)
  {
    var u := s.(handles := s.handles[h := s.handles[h].(ref := s.handles[h].ref - 1)]);
    var gs := HandlesOfClient(s, c);
    assert HandlesOfClient(u, c) == gs && h in gs;
    UsesSame(s, u, gs);
    hide Uses;
    assert u.handles - gs == s.handles - gs;
  }

  lemma UsesSame(s: State, u: State, gs: set<nat>)
    requires u.handles.Keys == s.handles.Keys
    requires forall h :: h in s.handles ==> u.handles[h].buffer == s.handles[h].buffer
    ensures forall b :: Uses(u, gs, b) <==> Uses(s, gs, b)
  {
    forall b: nat
      ensures Uses(u, gs, b) <==> Uses(s, gs, b)
    {
      if Uses(s, gs, b) {
        var k :| k in gs && k in s.handles && s.handles[k].buffer == b;
        assert k in u.handles;
      }
    }
  }

  /**
    The handle h of a user mapping and its client have each lost a reference. If that was the client's last, all its
    handles are gone, and this one with them.
   */
  ghost predicate MappingLoses(s: State, h: nat, t: State) {
    && h in s.handles && s.handles[h].client in s.clients
    && var c := s.handles[h].client;
      if s.clients[c].ref > 1 then
        && t.clients == s.clients[c := Client(s.clients[c].ref - 1, s.clients[c].task)]
        && HandleLoses(s, h, t) && t.taken == s.taken
      else
        t.clients == s.clients - {c} && HandlesGone(s, HandlesOfClient(s, c), t)
  }

  /** The last reference to a handle that is mapped by a user is that mapping's. */
  lemma MappedAlone(s: State, v: nat)
    requires DeviceRefs(s) && v in s.vmas && s.vmas[v] in s.handles
    ensures s.handles[s.vmas[v]].ref <= 1 ==> s.taken[s.vmas[v]] == 0
  {
    assert v in KeysOf(s.vmas, s.vmas[v]);
  }

  lemma VmaCloseDoes(s: State, v: nat, order: seq<nat>)
    requires v in s.vmas && s.vmas[v] in s.handles && s.handles[s.vmas[v]].client in s.clients
    requires OneHandlePerBuffer(s.handles) && forall h :: h in s.handles ==> s.handles[h].buffer in s.buffers
    requires s.handles[s.vmas[v]].ref <= 1 ==> s.taken[s.vmas[v]] == 0
    requires var u := HandlePut(s.(vmas := s.vmas - {v}), s.vmas[v]);
      && OrderedIfLast(u, s.handles[s.vmas[v]].client, order) && OneHandlePerBuffer(u.handles)
      && u.clients == s.clients && forall h :: h in u.handles ==> u.handles[h].buffer in u.buffers
    ensures var t := VmaClosed(s, v, order); t.vmas == s.vmas - {v} && MappingLoses(s, s.vmas[v], t)
  {
    var w, h, c := s.(vmas := s.vmas - {v}), s.vmas[v], s.handles[s.vmas[v]].client;
    var u := HandlePut(w, h);
    HandlePutDoes(w, h);
    HandlePutFrame(w, h);
    ClientPutDoes(u, c, order);
    ClientPutFrame(u, c, order);
    hide HandlePut, ClientPut, OneHandlePerBuffer, HandlesGone;
    if s.clients[c].ref <= 1 {
      GoneAfterPut(w, h, c, ClientPut(u, c, order));
      GoneSame(s, w, HandlesOfClient(s, c), ClientPut(u, c, order));
      assert HandlesOfClient(w, c) == HandlesOfClient(s, c);
    }
  }
}
