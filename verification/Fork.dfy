/**
 `MemorySet::from_existed_user` (os/src/mm/memory_set.rs): the copy of an address space that
 `fork` makes, on frames of its own, with the parent left as it was.
 */
module Fork {
  import opened Options
  import opened PhysMemory
  import opened PageTable
  import opened MapArea
  import opened MemorySets

  ghost predicate CopiedOpened(k: int) { true }

  /**
   The child's frames, `nodes` of its table and `data` of its pages, are none that was owned
   before; what was owned before is as it was; and the pages `done` have been copied.
   */
  ghost predicate Copied(mem0: Mem, owned0: set<nat>, mem: Mem, owned: set<nat>, nodes: map<Path, nat>, data: map<nat, nat>,
                         pdata: map<nat, nat>, done: set<nat>)
  {
    && |mem| == |mem0| && owned == owned0 + nodes.Values + data.Values
    && forall o :: CopiedOpened(o) ==>
         && nodes.Values !! owned0 && data.Values !! owned0
         && (forall q :: q in owned0 && q < |mem| ==> mem[q] == mem0[q])
         && (forall v :: v in done ==> v in data && v in pdata && data[v] < |mem| && pdata[v] < |mem| && mem[data[v]] == mem0[pdata[v]])
  }

  predicate SameShape(a: Area, b: Area) {
    a.start == b.start && a.end == b.end && a.perm == b.perm
  }

  ghost predicate ShapedOpened(k: int) { true }

  /** The child has the first `k` areas of the parent and binds their pages and the trampoline. */
  ghost predicate Shaped(pareas: seq<Area>, k: nat, areas: seq<Area>, data: map<nat, nat>, b: map<nat, u64>, tramp: nat) {
    && |areas| == k <= |pareas| && tramp < PPN_LIMIT
    && forall o :: ShapedOpened(o) ==>
         && (forall j :: 0 <= j < k ==> SameShape(areas[j], pareas[j]))
         && (forall v :: v in data <==> exists j :: 0 <= j < k && pareas[j].Holds(v))
         && b.Keys == data.Keys + {TRAMPOLINE} && b[TRAMPOLINE] == MakePte(tramp, WithV(TRAMPOLINE_FLAGS))
  }

  lemma CopiedInsert(mem0: Mem, owned0: set<nat>, mem1: Mem, owned1: set<nat>, mem2: Mem, owned2: set<nat>,
                     nodes1: map<Path, nat>, nodes2: map<Path, nat>, data: map<nat, nat>, d: map<nat, nat>,
                     pdata: map<nat, nat>, done: set<nat>)
    requires Copied(mem0, owned0, mem1, owned1, nodes1, data, pdata, done) && FramesOk(|mem1|, owned1, nodes1, data)
    requires Mapped(mem1, mem2, owned1, owned2, nodes1, nodes2, d)
    requires (forall v :: v in d ==> v !in data) && (data + d).Values == data.Values + d.Values
    ensures Copied(mem0, owned0, mem2, owned2, nodes2, data + d, pdata, done)
  {
    InsertFresh(mem0, owned0, mem1, owned1, mem2, owned2, nodes1, nodes2, data, d, pdata, done);
    InsertKeeps(mem0, owned0, mem1, owned1, mem2, owned2, nodes1, nodes2, data, d, pdata, done);
  }

  lemma InsertFresh(mem0: Mem, owned0: set<nat>, mem1: Mem, owned1: set<nat>, mem2: Mem, owned2: set<nat>,
                    nodes1: map<Path, nat>, nodes2: map<Path, nat>, data: map<nat, nat>, d: map<nat, nat>,
                    pdata: map<nat, nat>, done: set<nat>)
    requires Copied(mem0, owned0, mem1, owned1, nodes1, data, pdata, done)
    requires Mapped(mem1, mem2, owned1, owned2, nodes1, nodes2, d) && (data + d).Values == data.Values + d.Values
    ensures nodes2.Values !! owned0 && (data + d).Values !! owned0 && owned2 == owned0 + nodes2.Values + (data + d).Values
  {
    assert CopiedOpened(0);
    MappedNodes(mem1, mem2, owned1, owned2, nodes1, nodes2, d);
    forall f | f in nodes2.Values ensures f !in owned0 {
      var p :| p in nodes2 && nodes2[p] == f;
      if p in nodes1 {
        assert nodes1[p] in nodes1.Values;
      }
    }
    forall f | f in d.Values ensures f !in owned0 {
      var v :| v in d && d[v] == f;
      MappedFrame(mem1, mem2, owned1, owned2, nodes1, nodes2, d, v);
    }
  }

  lemma InsertKeeps(mem0: Mem, owned0: set<nat>, mem1: Mem, owned1: set<nat>, mem2: Mem, owned2: set<nat>,
                    nodes1: map<Path, nat>, nodes2: map<Path, nat>, data: map<nat, nat>, d: map<nat, nat>,
                    pdata: map<nat, nat>, done: set<nat>)
    requires Copied(mem0, owned0, mem1, owned1, nodes1, data, pdata, done) && FramesOk(|mem1|, owned1, nodes1, data)
    requires Mapped(mem1, mem2, owned1, owned2, nodes1, nodes2, d) && (forall v :: v in d ==> v !in data)
    ensures forall q :: q in owned0 && q < |mem2| ==> mem2[q] == mem0[q]
    ensures forall v :: v in done ==>
              v in data && v in pdata && v !in d && data[v] < |mem2| && pdata[v] < |mem2| && mem2[data[v]] == mem0[pdata[v]]
  {
    assert CopiedOpened(0);
    forall q | q in owned0 && q < |mem2| ensures mem2[q] == mem0[q] {
      MappedOutside(mem1, mem2, owned1, owned2, nodes1, nodes2, d, q);
    }
    forall v | v in done ensures data[v] < |mem2| && mem2[data[v]] == mem0[pdata[v]] {
      FrameAt(|mem1|, owned1, nodes1, data, v);
      MappedOutside(mem1, mem2, owned1, owned2, nodes1, nodes2, d, data[v]);
    }
  }

  lemma ShapedInsert(pareas: seq<Area>, k: nat, areas: seq<Area>, data: map<nat, nat>, b: map<nat, u64>, tramp: nat, a: Area)
    requires Shaped(pareas, k, areas, data, b, tramp) && k < |pareas| && a.Complete() && SameShape(a, pareas[k])
    requires (forall v :: a.Holds(v) ==> v !in b) && (forall v :: v in a.frames ==> a.frames[v] < PPN_LIMIT)
    ensures Shaped(pareas, k + 1, areas + [a], data + a.frames, b + PtesOf(a.frames, a.perm), tramp)
  {
    assert ShapedOpened(0);
    var data2, b2 := data + a.frames, b + PtesOf(a.frames, a.perm);
    assert forall v :: v in a.frames ==> a.Holds(v);
    assert b2.Keys == data2.Keys + {TRAMPOLINE};
    forall v ensures v in data2 <==> exists j :: 0 <= j < k + 1 && pareas[j].Holds(v) {
      assert v in a.frames <==> pareas[k].Holds(v);
    }
  }

  /** The pages of the next area are not bound in the child yet. */
  lemma ShapedNext(pareas: seq<Area>, k: nat, areas: seq<Area>, data: map<nat, nat>, b: map<nat, u64>, tramp: nat, v: nat)
    requires Shaped(pareas, k, areas, data, b, tramp) && k < |pareas| && Disjoint(pareas)
    requires pareas[k].Holds(v) && v != TRAMPOLINE
    ensures v !in b
  {
    assert ShapedOpened(0);
  }

  /** Copying one page. */
  lemma CopiedPage(mem0: Mem, owned0: set<nat>, mem: Mem, owned: set<nat>, nodes: map<Path, nat>, data: map<nat, nat>,
                   pdata: map<nat, nat>, done: set<nat>, v: nat)
    requires Copied(mem0, owned0, mem, owned, nodes, data, pdata, done) && FramesOk(|mem|, owned, nodes, data)
    requires v in data && v in pdata && pdata[v] in owned0 && pdata[v] < |mem|
    ensures data[v] < |mem|
    ensures Copied(mem0, owned0, mem[data[v] := mem[pdata[v]]], owned, nodes, data, pdata, done + {v})
  {
    assert CopiedOpened(0) && FramesOpened(0);
    assert data[v] in data.Values;
  }

  /** The parent sees nothing of it. */
  lemma ParentUntouched(mem0: Mem, owned0: set<nat>, mem: Mem, owned: set<nat>, nodes: map<Path, nat>, data: map<nat, nat>,
                        pdata: map<nat, nat>, done: set<nat>, proot: nat, pnodes: map<Path, nat>)
    requires Copied(mem0, owned0, mem, owned, nodes, data, pdata, done)
    requires Tree(mem0, proot, pnodes) && pnodes.Values <= owned0 && FramesOk(|mem0|, owned0, pnodes, pdata)
    ensures Tree(mem, proot, pnodes) && TableMap(mem, pnodes) == TableMap(mem0, pnodes) && pnodes.Values <= owned
    ensures FramesOk(|mem|, owned, pnodes, pdata)
  {
    assert CopiedOpened(0);
    forall p | p in pnodes && pnodes[p] < |mem0| ensures mem[pnodes[p]] == mem0[pnodes[p]] {
      assert pnodes[p] in pnodes.Values;
    }
    TreeFrame(mem0, mem, proot, pnodes);
    forall v | v in pdata ensures pdata[v] in owned && pdata[v] !in pnodes.Values {
      FrameAt(|mem0|, owned0, pnodes, pdata, v);
    }
    FramesFrame(|mem0|, owned0, owned, pnodes, pnodes, pdata);
  }

  /** The last page of the address range leads to the trampoline code, which may be read and executed but not by user code. */
  ghost predicate TrampolineBound(b: map<nat, u64>, tramp: nat) {
    0x7FF_FFFF in b && PtePpn(b[0x7FF_FFFF]) == tramp && PteFlags(b[0x7FF_FFFF]) == 0x0B
  }

  lemma TrampolineEntry(tramp: nat)
    requires tramp < PPN_LIMIT
    ensures var e := MakePte(tramp, WithV(TRAMPOLINE_FLAGS)); TRAMPOLINE == 0x7FF_FFFF && PtePpn(e) == tramp && PteFlags(e) == 0x0B
  {
    PteRoundTrip(tramp, WithV(TRAMPOLINE_FLAGS));
  }

  /** Pages of areas of the same shape have the same flags. */
  lemma SameFlags(b: map<nat, u64>, areas: seq<Area>, data: map<nat, nat>, pb: map<nat, u64>, pareas: seq<Area>, pdata: map<nat, nat>, v: nat)
    requires AreasOk(b, areas, data) && AreasOk(pb, pareas, pdata) && v in data && v in pdata && |areas| == |pareas|
    requires forall k :: 0 <= k < |areas| ==> SameShape(areas[k], pareas[k])
    ensures v in b && v in pb && PteFlags(b[v]) == PteFlags(pb[v])
  {
    PageBound(b, areas, data, v);
    PageBound(pb, pareas, pdata, v);
    var k :| 0 <= k < |areas| && areas[k].Holds(v);
    assert SameShape(areas[k], pareas[k]) && pareas[k].Holds(v);
    OddFlags(b[v]);
    OddFlags(pb[v]);
  }

  lemma OddFlags(e: u64)
    requires PteValid(e)
    ensures PteFlags(e) == 2 * (PteFlags(e) / 2) + 1
  {
  }

  /** `new_bare` and `map_trampoline`. */
  method NewWithTrampoline(pm: PhysMem, tramp: nat) returns (r: Option<MemorySet>)
    requires pm.Valid() && tramp < PPN_LIMIT
    modifies pm
    ensures r.None? ==> pm.Available() == 0
    ensures r.Some? ==>
              && fresh(r.value) && fresh(r.value.table) && r.value.Valid(pm) && r.value.areas == [] && r.value.data == map[]
              && r.value.table.Bindings(pm) == map[TRAMPOLINE := MakePte(tramp, WithV(TRAMPOLINE_FLAGS))]
              && TrampolineBound(r.value.table.Bindings(pm), tramp)
              && Copied(old(pm.mem), old(pm.owned), pm.mem, pm.owned, r.value.table.nodes, map[], map[], {})
  {
    TrampolineEntry(tramp);
    var f := pm.FrameAlloc();
    if f.None? {
      return None;
    }
    ghost var mem1, owned1 := pm.mem, pm.owned;
    var table := new Table(pm, f.value);
    var ok := table.Map(pm, TRAMPOLINE, tramp, TRAMPOLINE_FLAGS);
    if !ok {
      return None;
    }
    var child := new MemorySet(table);
    BareCopied(old(pm.mem), mem1, pm.mem, old(pm.owned), owned1, pm.owned, f.value, table.nodes);
    r := Some(child);
  }

  lemma BareCopied(mem0: Mem, mem1: Mem, mem2: Mem, owned0: set<nat>, owned1: set<nat>, owned2: set<nat>, f: nat, nodes: map<Path, nat>)
    requires f < |mem0| && f !in owned0 && mem1 == mem0[f := ZeroFrame()] && owned1 == owned0 + {f}
    requires Grew(mem1, mem2, owned1, owned2, map[Root := f], nodes)
    ensures Copied(mem0, owned0, mem2, owned2, nodes, map[], map[], {})
  {
    var nodes1 := map[Root := f];
    GrewNodes(mem1, mem2, owned1, owned2, nodes1, nodes);
    assert nodes[Root] == f && f in nodes.Values;
    forall g | g in nodes.Values ensures g !in owned0 {
      var p :| p in nodes && nodes[p] == g;
    }
    forall q | q in owned0 && q < |mem2| ensures mem2[q] == mem0[q] {
      GrewRest(mem1, mem2, owned1, owned2, nodes1, nodes, q);
    }
  }

  /** The parent of a fork as it was before: `Valid`, with the trampoline outside its areas. */
  ghost predicate ParentReady(pm: PhysMem, parent: MemorySet)
    reads pm, parent, parent.table
  {
    parent.Valid(pm) && forall k :: 0 <= k < |parent.areas| ==> !parent.areas[k].Holds(TRAMPOLINE)
  }

  /** What a fork under way relies on and keeps. */
  ghost predicate Forking(pm: PhysMem, parent: MemorySet, child: MemorySet, k: nat, tramp: nat,
                          mem0: Mem, owned0: set<nat>, done: set<nat>)
    reads pm, parent, parent.table, child, child.table
  {
    && parent != child && parent.table != child.table
    && ParentReady(pm, parent) && child.Valid(pm)
    && parent.table.nodes.Values <= owned0 && FramesOk(|mem0|, owned0, parent.table.nodes, parent.data)
    && Copied(mem0, owned0, pm.mem, pm.owned, child.table.nodes, child.data, parent.data, done)
    && Shaped(parent.areas, k, child.areas, child.data, child.table.Bindings(pm), tramp)
  }

  lemma ParentStays(pm: PhysMem, parent: MemorySet, mem1: Mem, owned1: set<nat>, mem0: Mem, owned0: set<nat>,
                    nodes: map<Path, nat>, data: map<nat, nat>, done: set<nat>)
    requires pm.Valid() && Tree(mem1, parent.table.root, parent.table.nodes) && Tracks(parent.table.frames, parent.table.nodes)
    requires AreasOk(TableMap(mem1, parent.table.nodes), parent.areas, parent.data)
    requires parent.table.nodes.Values <= owned0 && FramesOk(|mem0|, owned0, parent.table.nodes, parent.data)
    requires |mem1| == |mem0| && (forall q :: q in owned0 && q < |mem1| ==> mem1[q] == mem0[q])
    requires Copied(mem0, owned0, pm.mem, pm.owned, nodes, data, parent.data, done)
    ensures parent.Valid(pm) && parent.table.Bindings(pm) == TableMap(mem1, parent.table.nodes)
  {
    var pnodes := parent.table.nodes;
    forall p | p in pnodes && pnodes[p] < |mem1| ensures mem0[pnodes[p]] == mem1[pnodes[p]] {
      assert pnodes[p] in pnodes.Values;
    }
    TreeFrame(mem1, mem0, parent.table.root, pnodes);
    ParentUntouched(mem0, owned0, pm.mem, pm.owned, nodes, data, parent.data, done, parent.table.root, pnodes);
  }

  /** Map one area of the parent in the child. */
  method ForkArea(pm: PhysMem, parent: MemorySet, child: MemorySet, k: nat, ghost tramp: nat,
                  ghost mem0: Mem, ghost owned0: set<nat>, ghost done: set<nat>) returns (ok: bool)
    requires k < |parent.areas| && Forking(pm, parent, child, k, tramp, mem0, owned0, done)
    modifies pm, child, child.table
    ensures !ok ==> pm.Available() == 0
    ensures ok ==> Forking(pm, parent, child, k + 1, tramp, mem0, owned0, done) && |child.areas| == k + 1
  {
    ghost var mem1, owned1, nodes1 := pm.mem, pm.owned, child.table.nodes;
    ghost var data1, areas1, b1 := child.data, child.areas, child.table.Bindings(pm);
    ghost var pb := parent.table.Bindings(pm);
    AreaAt(pb, parent.areas, parent.data, k);
    var a := parent.areas[k];
    assert Disjoint(parent.areas) by { assert AreasOpened(0); }
    forall v | a.start <= v < a.end ensures v !in b1 {
      ShapedNext(parent.areas, k, areas1, data1, b1, tramp, v);
    }
    ok := child.Insert(pm, a.start, a.end, a.perm);
    if ok {
      ghost var c := child.areas[k];
      ForkAreaDone(mem0, owned0, mem1, owned1, pm.mem, pm.owned, nodes1, child.table.nodes, parent.areas, parent.data, k,
                   areas1, data1, b1, tramp, c, done);
      assert child.areas == areas1 + [c];
      CopiedUnchanged(mem0, owned0, mem1, owned1, nodes1, data1, parent.data, done);
      ParentStays(pm, parent, mem1, owned1, mem0, owned0, child.table.nodes, child.data, done);
    }
  }

  lemma CopiedUnchanged(mem0: Mem, owned0: set<nat>, mem: Mem, owned: set<nat>, nodes: map<Path, nat>, data: map<nat, nat>,
                        pdata: map<nat, nat>, done: set<nat>)
    requires Copied(mem0, owned0, mem, owned, nodes, data, pdata, done)
    ensures forall q :: q in owned0 && q < |mem| ==> mem[q] == mem0[q]
    ensures nodes.Values !! owned0 && data.Values !! owned0
  {
    assert CopiedOpened(0);
  }

  lemma ForkAreaDone(mem0: Mem, owned0: set<nat>, mem1: Mem, owned1: set<nat>, mem2: Mem, owned2: set<nat>,
                     nodes1: map<Path, nat>, nodes2: map<Path, nat>, pareas: seq<Area>, pdata: map<nat, nat>, k: nat,
                     areas: seq<Area>, data: map<nat, nat>, b: map<nat, u64>, tramp: nat, a: Area, done: set<nat>)
    requires Copied(mem0, owned0, mem1, owned1, nodes1, data, pdata, done) && FramesOk(|mem1|, owned1, nodes1, data)
    requires Shaped(pareas, k, areas, data, b, tramp) && k < |pareas| && a.Complete() && SameShape(a, pareas[k])
    requires Mapped(mem1, mem2, owned1, owned2, nodes1, nodes2, a.frames) && |mem2| <= PPN_LIMIT
    requires (data + a.frames).Values == data.Values + a.frames.Values && (forall v :: a.Holds(v) ==> v !in b)
    ensures Copied(mem0, owned0, mem2, owned2, nodes2, data + a.frames, pdata, done)
    ensures Shaped(pareas, k + 1, areas + [a], data + a.frames, b + PtesOf(a.frames, a.perm), tramp)
  {
    forall v | v in a.frames ensures a.frames[v] < PPN_LIMIT && v !in data {
      MappedFrame(mem1, mem2, owned1, owned2, nodes1, nodes2, a.frames, v);
      assert a.Holds(v);
      assert ShapedOpened(0);
    }
    CopiedInsert(mem0, owned0, mem1, owned1, mem2, owned2, nodes1, nodes2, data, a.frames, pdata, done);
    ShapedInsert(pareas, k, areas, data, b, tramp, a);
  }

  /** Copy one page from the parent to the child, both found through their tables. */
  method ForkPage(pm: PhysMem, parent: MemorySet, child: MemorySet, k: nat, v: nat, ghost tramp: nat,
                  ghost mem0: Mem, ghost owned0: set<nat>, ghost done: set<nat>)
    requires Forking(pm, parent, child, k, tramp, mem0, owned0, done) && v in parent.data && v in child.data
    modifies pm`mem
    ensures Forking(pm, parent, child, k, tramp, mem0, owned0, done + {v})
  {
    ghost var mem1 := pm.mem;
    FrameAt(|mem0|, owned0, parent.table.nodes, parent.data, v);
    var src := parent.PpnOf(pm, v);
    CopiedPage(mem0, owned0, pm.mem, pm.owned, child.table.nodes, child.data, parent.data, done, v);
    CopiedUnchanged(mem0, owned0, mem1, pm.owned, child.table.nodes, child.data, parent.data, done);
    child.SetPage(pm, v, pm.mem[src]);
    ParentStays(pm, parent, mem1, pm.owned, mem0, owned0, child.table.nodes, child.data, done + {v});
  }

  /** The pages `base` and those from `start` up to `v`. */
  ghost function Through(base: set<nat>, start: nat, v: nat): (s: set<nat>)
    ensures forall u :: u in s <==> u in base || start <= u < v
    decreases v
  {
    if v <= start then base else Through(base, start, v - 1) + {v - 1}
  }

  /** Copy one page of the area mapped last. */
  method ForkNextPage(pm: PhysMem, parent: MemorySet, child: MemorySet, k: nat, v: nat, ghost tramp: nat,
                      ghost mem0: Mem, ghost owned0: set<nat>, ghost done: set<nat>)
    requires k < |parent.areas| && Forking(pm, parent, child, k + 1, tramp, mem0, owned0, done) && parent.areas[k].Holds(v)
    modifies pm`mem
    ensures Forking(pm, parent, child, k + 1, tramp, mem0, owned0, done + {v})
  {
    PageInData(parent.table.Bindings(pm), parent.areas, parent.data, k, v);
    PageOfArea(parent.areas, k, child.areas, child.data, child.table.Bindings(pm), tramp, v);
    ForkPage(pm, parent, child, k + 1, v, tramp, mem0, owned0, done);
  }

  /** Copy all pages of the area mapped last. */
  method ForkPages(pm: PhysMem, parent: MemorySet, child: MemorySet, k: nat, ghost tramp: nat,
                   ghost mem0: Mem, ghost owned0: set<nat>, ghost base: set<nat>)
    requires k < |parent.areas| && Forking(pm, parent, child, k + 1, tramp, mem0, owned0, base)
    requires parent.areas[k].start <= parent.areas[k].end
    modifies pm`mem
    ensures Forking(pm, parent, child, k + 1, tramp, mem0, owned0, Through(base, parent.areas[k].start, parent.areas[k].end))
  {
    var a := parent.areas[k];
    var v := a.start;
    while v < a.end
      invariant a.start <= v <= a.end
      invariant Forking(pm, parent, child, k + 1, tramp, mem0, owned0, Through(base, a.start, v))
      modifies pm`mem
    {
      ForkNextPage(pm, parent, child, k, v, tramp, mem0, owned0, Through(base, a.start, v));
      v := v + 1;
    }
  }

  /** Map and copy one area. */
  method ForkAreaPages(pm: PhysMem, parent: MemorySet, child: MemorySet, k: nat, ghost tramp: nat, ghost mem0: Mem, ghost owned0: set<nat>)
    returns (ok: bool)
    requires k < |parent.areas| && Forking(pm, parent, child, k, tramp, mem0, owned0, child.data.Keys)
    modifies pm, child, child.table
    ensures !ok ==> pm.Available() == 0
    ensures ok ==> Forking(pm, parent, child, k + 1, tramp, mem0, owned0, child.data.Keys)
  {
    ghost var data1, areas1, b1 := child.data, child.areas, child.table.Bindings(pm);
    ok := ForkArea(pm, parent, child, k, tramp, mem0, owned0, data1.Keys);
    if ok {
      AreaAt(parent.table.Bindings(pm), parent.areas, parent.data, k);
      AllPages(parent.areas, k, areas1, data1, b1, child.areas, child.data, child.table.Bindings(pm), tramp);
      ForkPages(pm, parent, child, k, tramp, mem0, owned0, data1.Keys);
    }
  }

  lemma PageInData(b: map<nat, u64>, areas: seq<Area>, data: map<nat, nat>, k: nat, v: nat)
    requires AreasOk(b, areas, data) && k < |areas| && areas[k].Holds(v)
    ensures v in data
  {
    AreaAt(b, areas, data, k);
    assert PageOk(b, data, areas[k], v);
  }

  lemma PageOfArea(pareas: seq<Area>, k: nat, areas: seq<Area>, data: map<nat, nat>, b: map<nat, u64>, tramp: nat, v: nat)
    requires Shaped(pareas, k + 1, areas, data, b, tramp) && pareas[k].Holds(v)
    ensures v in data
  {
    assert ShapedOpened(0);
  }

  lemma AllPages(pareas: seq<Area>, k: nat, areas1: seq<Area>, data1: map<nat, nat>, b1: map<nat, u64>,
                 areas: seq<Area>, data: map<nat, nat>, b: map<nat, u64>, tramp: nat)
    requires Shaped(pareas, k, areas1, data1, b1, tramp) && Shaped(pareas, k + 1, areas, data, b, tramp)
    ensures data.Keys == Through(data1.Keys, pareas[k].start, pareas[k].end)
  {
    assert ShapedOpened(0);
    forall v ensures v in data <==> v in data1 || pareas[k].start <= v < pareas[k].end {
      if v in data {
        var j :| 0 <= j < k + 1 && pareas[j].Holds(v);
      }
      if pareas[k].start <= v < pareas[k].end {
        assert pareas[k].Holds(v);
      }
    }
  }

  /**
   `from_existed_user`: the child has the same areas with the same permissions, the same bytes
   in every page, and the trampoline, on frames none of which was in use; the parent, and
   every frame in use before, is untouched. Fails only when frames run out.
   */
  method FromExistedUser(pm: PhysMem, parent: MemorySet, tramp: nat) returns (r: Option<MemorySet>)
    requires ParentReady(pm, parent) && tramp < PPN_LIMIT
    modifies pm
    ensures r.None? ==> pm.Available() == 0
    ensures r.Some? ==>
              && var child := r.value;
              && fresh(child) && fresh(child.table) && child.Valid(pm) && parent.Valid(pm)
              && |child.areas| == |parent.areas| && child.data.Keys == parent.data.Keys
              && (forall k :: 0 <= k < |child.areas| ==> SameShape(child.areas[k], parent.areas[k]))
              && child.table.Bindings(pm).Keys == child.data.Keys + {TRAMPOLINE}
              && TrampolineBound(child.table.Bindings(pm), tramp)
              && (forall v :: v in child.data ==>
                    && v in child.table.Bindings(pm) && v in parent.table.Bindings(pm)
                    && PteFlags(child.table.Bindings(pm)[v]) == PteFlags(parent.table.Bindings(pm)[v]))
              && |pm.mem| == old(|pm.mem|) && pm.owned == old(pm.owned) + child.Footprint() && child.Footprint() !! old(pm.owned)
              && (forall q :: q in old(pm.owned) && q < |pm.mem| ==> pm.mem[q] == old(pm.mem)[q])
              && (forall v :: v in child.data ==>
                    child.data[v] < |pm.mem| && parent.data[v] < |pm.mem| && pm.mem[child.data[v]] == old(pm.mem)[parent.data[v]])
  {
    ghost var mem0, owned0 := pm.mem, pm.owned;
    var bare := NewWithTrampoline(pm, tramp);
    if bare.None? {
      return None;
    }
    var child := bare.value;
    StartFork(pm, parent, child, tramp, mem0, owned0);
    var k := 0;
    while k < |parent.areas|
      invariant 0 <= k <= |parent.areas| && Forking(pm, parent, child, k, tramp, mem0, owned0, child.data.Keys)
      modifies pm, child, child.table
    {
      var ok := ForkAreaPages(pm, parent, child, k, tramp, mem0, owned0);
      if !ok {
        return None;
      }
      k := k + 1;
    }
    EndFork(pm, parent, child, tramp, mem0, owned0);
    TrampolineEntry(tramp);
    ghost var b, pb := child.table.Bindings(pm), parent.table.Bindings(pm);
    forall v | v in child.data ensures v in b && v in pb && PteFlags(b[v]) == PteFlags(pb[v]) {
      SameFlags(b, child.areas, child.data, pb, parent.areas, parent.data, v);
    }
    r := Some(child);
  }

  lemma StartFork(pm: PhysMem, parent: MemorySet, child: MemorySet, tramp: nat, mem0: Mem, owned0: set<nat>)
    requires parent != child && parent.table != child.table && tramp < PPN_LIMIT
    requires pm.Valid() && child.Valid(pm) && child.areas == [] && child.data == map[]
    requires child.table.Bindings(pm) == map[TRAMPOLINE := MakePte(tramp, WithV(TRAMPOLINE_FLAGS))]
    requires Copied(mem0, owned0, pm.mem, pm.owned, child.table.nodes, map[], map[], {})
    requires Tree(mem0, parent.table.root, parent.table.nodes) && Tracks(parent.table.frames, parent.table.nodes)
    requires AreasOk(TableMap(mem0, parent.table.nodes), parent.areas, parent.data)
    requires parent.table.nodes.Values <= owned0 && FramesOk(|mem0|, owned0, parent.table.nodes, parent.data)
    requires forall k :: 0 <= k < |parent.areas| ==> !parent.areas[k].Holds(TRAMPOLINE)
    ensures Forking(pm, parent, child, 0, tramp, mem0, owned0, child.data.Keys)
  {
    assert Copied(mem0, owned0, pm.mem, pm.owned, child.table.nodes, map[], parent.data, {}) by { assert CopiedOpened(0); }
    ParentStays(pm, parent, mem0, owned0, mem0, owned0, child.table.nodes, map[], {});
    assert child.data.Keys == {};
  }

  lemma EndFork(pm: PhysMem, parent: MemorySet, child: MemorySet, tramp: nat, mem0: Mem, owned0: set<nat>)
    requires Forking(pm, parent, child, |parent.areas|, tramp, mem0, owned0, child.data.Keys)
    ensures |child.areas| == |parent.areas| && child.data.Keys == parent.data.Keys
    ensures forall k :: 0 <= k < |child.areas| ==> SameShape(child.areas[k], parent.areas[k])
    ensures child.table.Bindings(pm).Keys == child.data.Keys + {TRAMPOLINE}
    ensures child.table.Bindings(pm)[TRAMPOLINE] == MakePte(tramp, WithV(TRAMPOLINE_FLAGS))
    ensures |pm.mem| == |mem0| && pm.owned == owned0 + child.Footprint() && child.Footprint() !! owned0
    ensures forall q :: q in owned0 && q < |pm.mem| ==> pm.mem[q] == mem0[q]
    ensures forall v :: v in child.data ==>
              v in parent.data && child.data[v] < |pm.mem| && parent.data[v] < |pm.mem| && pm.mem[child.data[v]] == mem0[parent.data[v]]
  {
    assert CopiedOpened(0) && ShapedOpened(0);
    SamePages(parent.areas, child.areas, child.data, child.table.Bindings(pm), tramp, parent.table.Bindings(pm), parent.data);
  }

  lemma SamePages(pareas: seq<Area>, areas: seq<Area>, data: map<nat, nat>, b: map<nat, u64>, tramp: nat,
                  pb: map<nat, u64>, pdata: map<nat, nat>)
    requires Shaped(pareas, |pareas|, areas, data, b, tramp) && AreasOk(pb, pareas, pdata)
    ensures data.Keys == pdata.Keys
  {
    assert ShapedOpened(0) && AreasOpened(0);
    forall v ensures v in data <==> v in pdata {
      if v in data {
        var j :| 0 <= j < |pareas| && pareas[j].Holds(v);
        assert AreaOk(pb, pdata, pareas[j]) && PageOk(pb, pdata, pareas[j], v);
      }
    }
  }

  /** What a space holds: the bytes of every page of its areas. */
  ghost function Contents(mem: Mem, data: map<nat, nat>): map<nat, Frame> {
    map v | v in data && data[v] < |mem| :: mem[data[v]]
  }

  lemma ContentsAfter(mem: Mem, n: nat, owned: set<nat>, nodes: map<Path, nat>, data: map<nat, nat>, v: nat, f: Frame)
    requires FramesOk(n, owned, nodes, data) && n == |mem| && v in data && data[v] < |mem|
    ensures Contents(mem[data[v] := f], data) == Contents(mem, data)[v := f]
  {
    assert FramesOpened(0);
  }

  /**
   Conservation: inserting an area and removing it again gives back all its frames; what
   stays is the frames of tables made on the way, and the space is as it was.
   */
  method InsertThenRemove(pm: PhysMem, space: MemorySet, start: nat, end: nat, perm: nat) returns (ok: bool)
    requires space.Valid(pm) && start <= end <= VPN_LIMIT && perm < 256
    requires forall v :: start <= v < end ==> v !in space.table.Bindings(pm)
    requires forall k :: 0 <= k < |space.areas| ==> space.areas[k].start != start
    modifies pm, space, space.table
    ensures !ok ==> pm.Available() == 0
    ensures ok ==>
              && space.Valid(pm) && space.areas == old(space.areas) && space.data == old(space.data)
              && space.table.Bindings(pm) == old(space.table.Bindings(pm))
              && old(space.table.nodes).Values <= space.table.nodes.Values
              && pm.owned == old(pm.owned) + space.table.nodes.Values
  {
    ghost var mem0, owned0, nodes0, n, b0, data0 := pm.mem, pm.owned, space.table.nodes, |space.areas|, space.table.Bindings(pm), space.data;
    ok := space.Insert(pm, start, end, perm);
    if ok {
      ghost var a := space.areas[n];
      MappedNodes(mem0, pm.mem, owned0, pm.owned, nodes0, space.table.nodes, a.frames);
      InsertRemoveFrames(mem0, pm.mem, owned0, pm.owned, nodes0, space.table.nodes, a, b0, data0, space.areas[..n]);
      ghost var k := space.Remove(pm, start);
      assert k == n;
    }
  }

  lemma InsertRemoveFrames(mem0: Mem, mem: Mem, owned0: set<nat>, owned: set<nat>, nodes0: map<Path, nat>, nodes: map<Path, nat>,
                           a: Area, b0: map<nat, u64>, data0: map<nat, nat>, areas0: seq<Area>)
    requires Mapped(mem0, mem, owned0, owned, nodes0, nodes, a.frames) && a.Complete() && |mem| <= PPN_LIMIT
    requires AreasOk(b0, areas0, data0) && (forall v :: a.Holds(v) ==> v !in b0)
    ensures owned - a.frames.Values == owned0 + nodes.Values
    ensures b0 + PtesOf(a.frames, a.perm) - a.frames.Keys == b0 && data0 + a.frames - a.frames.Keys == data0
  {
    forall v | v in a.frames ensures a.frames[v] !in owned0 && a.frames[v] !in nodes.Values && v !in b0 && v !in data0 {
      MappedFrame(mem0, mem, owned0, owned, nodes0, nodes, a.frames, v);
      assert a.Holds(v);
      if v in data0 {
        PageBound(b0, areas0, data0, v);
      }
    }
    forall f | f in a.frames.Values ensures f !in owned0 && f !in nodes.Values {
      var v :| v in a.frames && a.frames[v] == f;
    }
  }
}
