/**
 Operations on one of many address spaces (os/src/mm/memory_set.rs): each changes what that space
 shows as the simple model says, and acts on its own frames and free ones only.
 */
module SpaceOps {
  import opened Options
  import opened Bytes
  import opened PhysMemory
  import opened PageTable
  import opened MapArea
  import opened MemorySets
  import opened Fork
  import opened Spaces

  ghost function StateOf(m: MemorySet): Space
    reads m, m.table
  {
    Space(m.table.root, m.table.frames, m.table.nodes, m.areas, m.data)
  }

  lemma ShowsValid(pm: PhysMem, m: MemorySet, w: View)
    requires pm.Valid() && Shows(pm.mem, pm.owned, StateOf(m), w)
    ensures m.Valid(pm) && w.pages.Keys == m.data.Keys && m.table.Bindings(pm).Keys == m.data.Keys + {TRAMPOLINE}
    ensures Contents(pm.mem, m.data) == w.pages && TRAMPOLINE !in m.data
    ensures |w.areas| == |m.areas| && forall i :: 0 <= i < |m.areas| ==> w.areas[i] == ShapeOf(m.areas[i])
  {
    assert SoundOpened(0) && LooksOpened(0);
    PagesAll(pm.mem, pm.owned, m.table.nodes, m.data);
  }

  lemma ValidSound(pm: PhysMem, m: MemorySet)
    requires m.Valid(pm) && m.table.Bindings(pm).Keys == m.data.Keys + {TRAMPOLINE} && TRAMPOLINE !in m.data
    ensures Sound(pm.mem, pm.owned, StateOf(m))
  {
  }

  lemma PagesAll(mem: Mem, owned: set<nat>, nodes: map<Path, nat>, data: map<nat, nat>)
    requires FramesOk(|mem|, owned, nodes, data)
    ensures Contents(mem, data).Keys == data.Keys
  {
    assert FramesOpened(0);
  }

  // ---- Inserting an area

  /** Cleared pages. */
  ghost function Zeros(start: nat, end: nat): (r: map<nat, Frame>)
    ensures forall v :: v in r <==> start <= v < end
    ensures forall v :: v in r ==> r[v] == ZeroFrame()
  {
    if start >= end then map[] else Zeros(start, end - 1)[end - 1 := ZeroFrame()]
  }

  /** `insert_framed_area` in the simple model. */
  ghost function Inserted(w: View, start: nat, end: nat, perm: nat): View {
    View(w.areas + [Shape(start, end, perm)], w.pages + Zeros(start, end))
  }

  lemma InsertedPages(mem0: Mem, owned0: set<nat>, nodes0: map<Path, nat>, data: map<nat, nat>, mem: Mem, owned: set<nat>,
                      nodes: map<Path, nat>, a: Area)
    requires FramesOk(|mem0|, owned0, nodes0, data) && a.Complete() && (forall v :: a.Holds(v) ==> v !in data)
    requires Mapped(mem0, mem, owned0, owned, nodes0, nodes, a.frames)
    ensures Contents(mem, data + a.frames) == Contents(mem0, data) + Zeros(a.start, a.end)
  {
    forall v | v in data ensures data[v] < |mem| && mem[data[v]] == mem0[data[v]] {
      FrameAt(|mem0|, owned0, nodes0, data, v);
      MappedOutside(mem0, mem, owned0, owned, nodes0, nodes, a.frames, data[v]);
    }
    forall v | v in a.frames ensures a.frames[v] < |mem| && mem[a.frames[v]] == ZeroFrame() {
      MappedFrame(mem0, mem, owned0, owned, nodes0, nodes, a.frames, v);
    }
    assert a.frames.Keys == Zeros(a.start, a.end).Keys;
    ContentsUnion(mem0, mem, data, a.frames, Zeros(a.start, a.end));
  }

  lemma ContentsUnion(mem0: Mem, mem: Mem, data: map<nat, nat>, d: map<nat, nat>, zeros: map<nat, Frame>)
    requires |mem| == |mem0| && d.Keys == zeros.Keys
    requires forall v :: v in data ==> data[v] < |mem| && mem[data[v]] == mem0[data[v]]
    requires forall v :: v in d ==> d[v] < |mem| && mem[d[v]] == zeros[v]
    ensures Contents(mem, data + d) == Contents(mem0, data) + zeros
  {
  }

  lemma InsertedAlone(mem0: Mem, owned0: set<nat>, nodes0: map<Path, nat>, data: map<nat, nat>, mem: Mem, owned: set<nat>,
                      nodes: map<Path, nat>, d: map<nat, nat>, data': map<nat, nat>)
    requires Mapped(mem0, mem, owned0, owned, nodes0, nodes, d) && data'.Values == data.Values + d.Values
    requires nodes0.Values + data.Values <= owned0
    ensures ActsAlone(mem0, owned0, mem, owned, nodes0.Values + data.Values, nodes.Values + data'.Values)
  {
    MappedNodes(mem0, mem, owned0, owned, nodes0, nodes, d);
    var before, after := nodes0.Values + data.Values, nodes.Values + data'.Values;
    forall q | q in owned0 - before ensures q !in after && (q < |mem| ==> mem[q] == mem0[q]) {
      MappedOutside(mem0, mem, owned0, owned, nodes0, nodes, d, q);
    }
    assert owned == owned0 - before + after;
  }

  /** A range of pages of which none is mapped, the trampoline included. */
  predicate Vacant(w: View, start: nat, end: nat) {
    start <= end <= VPN_LIMIT && (forall v :: v in w.pages ==> !(start <= v < end)) && !(start <= TRAMPOLINE < end)
  }

  method InsertArea(pm: PhysMem, m: MemorySet, start: nat, end: nat, perm: nat, ghost w: View) returns (ok: bool)
    requires pm.Valid() && Shows(pm.mem, pm.owned, StateOf(m), w) && perm < 256 && Vacant(w, start, end)
    modifies pm, m, m.table
    ensures !ok ==> pm.Available() == 0
    ensures ok ==>
              && pm.Valid() && Shows(pm.mem, pm.owned, StateOf(m), Inserted(w, start, end, perm))
              && ActsAlone(old(pm.mem), old(pm.owned), pm.mem, pm.owned, old(StateOf(m)).Footprint(), StateOf(m).Footprint())
  {
    ShowsValid(pm, m, w);
    ghost var mem0, owned0, s0, b0 := pm.mem, pm.owned, StateOf(m), m.table.Bindings(pm);
    FootprintOwned(mem0, owned0, s0);
    ok := m.Insert(pm, start, end, perm);
    if ok {
      ghost var a := m.areas[|s0.areas|];
      InsertedAlone(mem0, owned0, s0.nodes, s0.data, pm.mem, pm.owned, m.table.nodes, a.frames, m.data);
      FramesSmall(pm.mem, pm.owned, m.table.nodes, m.data, s0.data, a.frames);
      KeysGrow(b0, s0.data, a.frames, perm);
      ValidSound(pm, m);
      InsertedLooks(mem0, owned0, s0, w, pm.mem, pm.owned, StateOf(m), a);
    }
  }

  lemma FramesSmall(mem: Mem, owned: set<nat>, nodes: map<Path, nat>, data': map<nat, nat>, data: map<nat, nat>, d: map<nat, nat>)
    requires FramesOk(|mem|, owned, nodes, data') && data' == data + d && |mem| <= PPN_LIMIT
    ensures forall v :: v in d ==> d[v] < PPN_LIMIT
  {
    forall v | v in d ensures d[v] < PPN_LIMIT {
      FrameAt(|mem|, owned, nodes, data', v);
    }
  }

  lemma KeysGrow(b: map<nat, u64>, data: map<nat, nat>, d: map<nat, nat>, perm: nat)
    requires b.Keys == data.Keys + {TRAMPOLINE} && perm < 256 && forall v :: v in d ==> d[v] < PPN_LIMIT
    ensures (b + PtesOf(d, perm)).Keys == (data + d).Keys + {TRAMPOLINE}
  {
    assert PtesOf(d, perm).Keys == d.Keys;
  }

  lemma InsertedLooks(mem0: Mem, owned0: set<nat>, s0: Space, w: View, mem: Mem, owned: set<nat>, s: Space, a: Area)
    requires Shows(mem0, owned0, s0, w) && a.Complete() && Vacant(w, a.start, a.end)
    requires s.areas == s0.areas + [a] && s.data == s0.data + a.frames
    requires Mapped(mem0, mem, owned0, owned, s0.nodes, s.nodes, a.frames)
    ensures Looks(mem, s, Inserted(w, a.start, a.end, a.perm))
  {
    assert SoundOpened(0) && LooksOpened(0);
    PagesAll(mem0, owned0, s0.nodes, s0.data);
    InsertedPages(mem0, owned0, s0.nodes, s0.data, mem, owned, s.nodes, a);
  }

  // ---- Removing an area

  /** The first area that starts at `start`, or the number of areas. */
  ghost function FirstAt(areas: seq<Shape>, start: nat): (k: nat)
    ensures k <= |areas| && (k < |areas| ==> areas[k].start == start)
  {
    if areas == [] || areas[0].start == start then 0 else 1 + FirstAt(areas[1..], start)
  }

  lemma {:induction false} FirstAtIs(areas: seq<Shape>, start: nat, k: nat)
    requires k <= |areas| && (k < |areas| ==> areas[k].start == start)
    requires forall m :: 0 <= m < k ==> areas[m].start != start
    ensures FirstAt(areas, start) == k
    decreases k
  {
    if k > 0 {
      FirstAtIs(areas[1..], start, k - 1);
    }
  }

  ghost function PagesOutside(pages: map<nat, Frame>, a: Shape): map<nat, Frame> {
    map v | v in pages && !(a.start <= v < a.end) :: pages[v]
  }

  /** `remove_area_with_start_vpn` in the simple model. */
  ghost function Removed(w: View, start: nat): View {
    var k := FirstAt(w.areas, start);
    if k == |w.areas| then w else View(w.areas[..k] + w.areas[k + 1..], PagesOutside(w.pages, w.areas[k]))
  }

  lemma RemovedValues(n: nat, owned: set<nat>, nodes: map<Path, nat>, data: map<nat, nat>, d: map<nat, nat>)
    requires FramesOk(n, owned, nodes, data) && forall v :: v in d ==> v in data && data[v] == d[v]
    ensures (data - d.Keys).Values == data.Values - d.Values && d.Values !! nodes.Values
  {
    assert FramesOpened(0);
    var rest := data - d.Keys;
    forall f | f in data.Values - d.Values ensures f in rest.Values {
      var v :| v in data && data[v] == f;
      assert v !in d;
      assert rest[v] == f;
    }
    forall f | f in rest.Values ensures f in data.Values && f !in d.Values {
      var v :| v in rest && rest[v] == f;
      assert data[v] == f;
    }
  }

  lemma RemovedAlone(mem0: Mem, mem: Mem, owned0: set<nat>, owned: set<nat>, nodes: map<Path, nat>, data: map<nat, nat>, d: map<nat, nat>)
    requires FramesOk(|mem0|, owned0, nodes, data) && |mem| == |mem0| && nodes.Values + data.Values <= owned0
    requires forall v :: v in d ==> v in data && data[v] == d[v]
    requires owned == owned0 - d.Values && forall q :: 0 <= q < |mem| && q !in nodes.Values ==> mem[q] == mem0[q]
    ensures ActsAlone(mem0, owned0, mem, owned, nodes.Values + data.Values, nodes.Values + (data - d.Keys).Values)
    ensures Contents(mem, data - d.Keys) == Contents(mem0, data) - d.Keys
  {
    RemovedValues(|mem0|, owned0, nodes, data, d);
    forall f | f in d.Values ensures f in data.Values {
      var v :| v in d && d[v] == f;
      assert data[v] == f;
    }
    assert owned == owned0 - (nodes.Values + data.Values) + (nodes.Values + (data.Values - d.Values));
    forall v | v in data ensures data[v] < |mem| && mem[data[v]] == mem0[data[v]] {
      FrameAt(|mem0|, owned0, nodes, data, v);
    }
  }

  method RemoveArea(pm: PhysMem, m: MemorySet, start: nat, ghost w: View)
    requires pm.Valid() && Shows(pm.mem, pm.owned, StateOf(m), w)
    modifies pm, m
    ensures pm.Valid() && Shows(pm.mem, pm.owned, StateOf(m), Removed(w, start))
    ensures ActsAlone(old(pm.mem), old(pm.owned), pm.mem, pm.owned, old(StateOf(m)).Footprint(), StateOf(m).Footprint())
  {
    ShowsValid(pm, m, w);
    ghost var mem0, owned0, s0, b0 := pm.mem, pm.owned, StateOf(m), m.table.Bindings(pm);
    FootprintOwned(mem0, owned0, s0);
    ghost var k := m.Remove(pm, start);
    FirstAtIs(w.areas, start, k);
    if k < |s0.areas| {
      RemovedShows(mem0, owned0, s0, w, pm.mem, pm.owned, StateOf(m), k, start);
      AreaFrames(b0, s0.areas, s0.data, k);
      KeysShrink(b0, s0.data, s0.areas[k].frames.Keys);
    }
    ValidSound(pm, m);
  }

  lemma KeysShrink(b: map<nat, u64>, data: map<nat, nat>, ks: set<nat>)
    requires b.Keys == data.Keys + {TRAMPOLINE} && TRAMPOLINE !in ks
    ensures (b - ks).Keys == (data - ks).Keys + {TRAMPOLINE}
  {
  }

  lemma RemovedShows(mem0: Mem, owned0: set<nat>, s0: Space, w: View, mem: Mem, owned: set<nat>, s: Space, k: nat, start: nat)
    requires Shows(mem0, owned0, s0, w) && k < |s0.areas| == |w.areas| && FirstAt(w.areas, start) == k && |mem| == |mem0|
    requires s.nodes == s0.nodes && s.areas == s0.areas[..k] + s0.areas[k + 1..] && s.data == s0.data - s0.areas[k].frames.Keys
    requires owned == owned0 - s0.areas[k].frames.Values
    requires forall q :: 0 <= q < |mem| && q !in s0.nodes.Values ==> mem[q] == mem0[q]
    ensures ActsAlone(mem0, owned0, mem, owned, s0.Footprint(), s.Footprint()) && Looks(mem, s, Removed(w, start))
  {
    FootprintOwned(mem0, owned0, s0);
    assert SoundOpened(0);
    AreaFrames(TableMap(mem0, s0.nodes), s0.areas, s0.data, k);
    RemovedAlone(mem0, mem, owned0, owned, s0.nodes, s0.data, s0.areas[k].frames);
    RemovedLooks(mem0, s0, w, mem, s, k, start);
  }

  /** An area's frames are those behind its pages. */
  lemma AreaFrames(b: map<nat, u64>, areas: seq<Area>, data: map<nat, nat>, k: nat)
    requires AreasOk(b, areas, data) && k < |areas|
    ensures forall v :: v in areas[k].frames ==> v in data && data[v] == areas[k].frames[v]
    ensures forall v :: v in areas[k].frames <==> areas[k].start <= v < areas[k].end
  {
    AreaAt(b, areas, data, k);
    forall v | v in areas[k].frames ensures v in data && data[v] == areas[k].frames[v] {
      assert areas[k].Holds(v);
      assert PageOk(b, data, areas[k], v);
    }
  }

  lemma RemovedLooks(mem0: Mem, s0: Space, w: View, mem: Mem, s: Space, k: nat, start: nat)
    requires Looks(mem0, s0, w) && k < |s0.areas| == |w.areas| && FirstAt(w.areas, start) == k
    requires s.areas == s0.areas[..k] + s0.areas[k + 1..]
    requires forall v :: v in s0.areas[k].frames <==> s0.areas[k].start <= v < s0.areas[k].end
    requires Contents(mem, s.data) == Contents(mem0, s0.data) - s0.areas[k].frames.Keys
    ensures Looks(mem, s, Removed(w, start))
  {
    assert LooksOpened(0);
    assert PagesOutside(w.pages, w.areas[k]) == w.pages - s0.areas[k].frames.Keys;
  }

  // ---- Loads and stores

  /** A store of byte `x` at address `va` in the simple model. */
  ghost function Stored(w: View, va: nat, x: byte): View
    requires va / 4096 in w.pages
  {
    View(w.areas, w.pages[va / 4096 := w.pages[va / 4096][va % 4096 := x]])
  }

  method StoreAt(pm: PhysMem, m: MemorySet, va: nat, x: byte, ghost w: View)
    requires pm.Valid() && Shows(pm.mem, pm.owned, StateOf(m), w) && va / 4096 in w.pages
    modifies pm`mem
    ensures pm.Valid() && Shows(pm.mem, pm.owned, StateOf(m), Stored(w, va, x))
    ensures ActsAlone(old(pm.mem), pm.owned, pm.mem, pm.owned, StateOf(m).Footprint(), StateOf(m).Footprint())
  {
    ShowsValid(pm, m, w);
    ghost var mem0 := pm.mem;
    FootprintOwned(mem0, pm.owned, StateOf(m));
    var v := va / 4096;
    var ppn := m.PpnOf(pm, v);
    var f: Frame := pm.mem[ppn][va % 4096 := x];
    ContentsAfter(mem0, |mem0|, pm.owned, m.table.nodes, m.data, v, f);
    m.SetPage(pm, v, f);
    assert ppn in m.data.Values;
    assert Looks(pm.mem, StateOf(m), Stored(w, va, x)) by { assert LooksOpened(0); }
    ValidSound(pm, m);
  }

  method LoadAt(pm: PhysMem, m: MemorySet, va: nat, ghost w: View) returns (x: byte)
    requires pm.Valid() && Shows(pm.mem, pm.owned, StateOf(m), w) && va / 4096 in w.pages
    ensures x == w.pages[va / 4096][va % 4096]
  {
    ShowsValid(pm, m, w);
    var ppn := m.PpnOf(pm, va / 4096);
    x := pm.mem[ppn][va % 4096];
    assert Contents(pm.mem, m.data)[va / 4096] == pm.mem[ppn];
  }

  // ---- Forking

  method ForkSpace(pm: PhysMem, parent: MemorySet, tramp: nat, ghost w: View) returns (r: Option<MemorySet>)
    requires pm.Valid() && Shows(pm.mem, pm.owned, StateOf(parent), w) && tramp < PPN_LIMIT
    modifies pm
    ensures r.None? ==> pm.Available() == 0
    ensures r.Some? ==>
              && fresh(r.value) && fresh(r.value.table) && pm.Valid() && Shows(pm.mem, pm.owned, StateOf(r.value), w)
              && ActsAlone(old(pm.mem), old(pm.owned), pm.mem, pm.owned, {}, StateOf(r.value).Footprint())
  {
    ShowsValid(pm, parent, w);
    ghost var mem0 := pm.mem;
    NoTrampoline(parent.table.Bindings(pm), parent.areas, parent.data);
    r := FromExistedUser(pm, parent, tramp);
    if r.Some? {
      ghost var child := r.value;
      ForkedLooks(mem0, pm.mem, StateOf(parent), StateOf(child), w);
      ValidSound(pm, child);
    }
  }

  lemma ForkedLooks(mem0: Mem, mem: Mem, p: Space, c: Space, w: View)
    requires Looks(mem0, p, w) && |mem| == |mem0| && |c.areas| == |p.areas| && c.data.Keys == p.data.Keys
    requires forall k :: 0 <= k < |c.areas| ==> SameShape(c.areas[k], p.areas[k])
    requires forall v :: v in c.data ==> c.data[v] < |mem| && p.data[v] < |mem| && mem[c.data[v]] == mem0[p.data[v]]
    ensures Looks(mem, c, w)
  {
    assert LooksOpened(0);
    assert Contents(mem, c.data) == Contents(mem0, p.data);
  }

  lemma NoTrampoline(b: map<nat, u64>, areas: seq<Area>, data: map<nat, nat>)
    requires AreasOk(b, areas, data) && TRAMPOLINE !in data
    ensures forall k :: 0 <= k < |areas| ==> !areas[k].Holds(TRAMPOLINE)
  {
    forall k | 0 <= k < |areas| ensures !areas[k].Holds(TRAMPOLINE) {
      AreaFrames(b, areas, data, k);
    }
  }

  /** A space with nothing but the trampoline. */
  method BareSpace(pm: PhysMem, tramp: nat) returns (r: Option<MemorySet>)
    requires pm.Valid() && tramp < PPN_LIMIT
    modifies pm
    ensures r.None? ==> pm.Available() == 0
    ensures r.Some? ==>
              && fresh(r.value) && fresh(r.value.table) && pm.Valid() && Shows(pm.mem, pm.owned, StateOf(r.value), View([], map[]))
              && ActsAlone(old(pm.mem), old(pm.owned), pm.mem, pm.owned, {}, StateOf(r.value).Footprint())
  {
    ghost var mem0, owned0 := pm.mem, pm.owned;
    r := NewWithTrampoline(pm, tramp);
    if r.Some? {
      ghost var m := r.value;
      CopiedUnchanged(mem0, owned0, pm.mem, pm.owned, m.table.nodes, map[], map[], {});
      assert Contents(pm.mem, m.data) == map[];
      assert Looks(pm.mem, StateOf(m), View([], map[])) by { assert LooksOpened(0); }
      ValidSound(pm, m);
    }
  }
}
