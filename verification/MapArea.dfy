/**
 Framed areas of an address space (os/src/mm/memory_set.rs): mapping and unmapping their pages one
 by one, and what it means for a list of areas to agree with the page table and the frames.
 */
module MapArea {
  import opened PhysMemory
  import opened PageTable

  /** A framed `MapArea`: pages `start..end`, the frame behind each, and the permission bits. */
  datatype Area = Area(start: nat, end: nat, frames: map<nat, nat>, perm: nat)
  {
    predicate Holds(v: nat) { start <= v < end }

    /** Every page of the area has a frame, and no other page has. */
    ghost predicate Complete() {
      start <= end <= VPN_LIMIT && perm < 256 && forall v :: v in frames <==> start <= v < end
    }
  }

  ghost predicate InjectiveFrames(d: map<nat, nat>) {
    forall v, w :: v in d && w in d && d[v] == d[w] ==> v == w
  }

  ghost predicate MappedOpened(k: int) { true }

  /**
   A table has grown from `nodes0` to `nodes` and the frames `d` have been taken from the free
   ones, cleared, for the pages that are their keys; nothing else has been written.
   */
  ghost predicate Mapped(mem0: Mem, mem: Mem, owned0: set<nat>, owned: set<nat>, nodes0: map<Path, nat>, nodes: map<Path, nat>,
                         d: map<nat, nat>)
  {
    && |mem| == |mem0| && owned == owned0 + nodes.Values + d.Values
    && forall k :: MappedOpened(k) ==>
         && InjectiveFrames(d)
         && (forall p :: p in nodes0 ==> p in nodes && nodes[p] == nodes0[p])
         && (forall p :: p in nodes && p !in nodes0 ==> nodes[p] !in owned0)
         && (forall v :: v in d ==> d[v] !in owned0 && d[v] !in nodes.Values && d[v] < |mem| && mem[d[v]] == ZeroFrame())
         && (forall q :: 0 <= q < |mem| && q !in nodes.Values && q !in d.Values ==> mem[q] == mem0[q])
  }

  lemma MappedNone(mem: Mem, owned: set<nat>, nodes: map<Path, nat>)
    requires nodes.Values <= owned
    ensures Mapped(mem, mem, owned, owned, nodes, nodes, map[])
  {
    assert owned == owned + nodes.Values + {};
  }

  lemma MappedFrame(mem0: Mem, mem: Mem, owned0: set<nat>, owned: set<nat>, nodes0: map<Path, nat>, nodes: map<Path, nat>,
                    d: map<nat, nat>, v: nat)
    requires Mapped(mem0, mem, owned0, owned, nodes0, nodes, d) && v in d
    ensures d[v] !in owned0 && d[v] !in nodes.Values && d[v] < |mem| && mem[d[v]] == ZeroFrame() && d[v] in owned
  {
    assert MappedOpened(0);
    assert d[v] in d.Values;
  }

  lemma MappedInjective(mem0: Mem, mem: Mem, owned0: set<nat>, owned: set<nat>, nodes0: map<Path, nat>, nodes: map<Path, nat>,
                        d: map<nat, nat>)
    requires Mapped(mem0, mem, owned0, owned, nodes0, nodes, d)
    ensures InjectiveFrames(d)
  {
    assert MappedOpened(0);
  }

  /** One more page: a cleared frame `f` for page `v`, then growth of the table. */
  lemma MappedStep(mem0: Mem, mem1: Mem, mem2: Mem, owned0: set<nat>, owned1: set<nat>, owned2: set<nat>,
                   nodes0: map<Path, nat>, nodes1: map<Path, nat>, nodes2: map<Path, nat>, d: map<nat, nat>, v: nat, f: nat)
    requires Mapped(mem0, mem1, owned0, owned1, nodes0, nodes1, d) && nodes0.Values <= owned0
    requires v !in d && f !in owned1 && f < |mem1|
    requires Grew(mem1[f := ZeroFrame()], mem2, owned1 + {f}, owned2, nodes1, nodes2)
    ensures Mapped(mem0, mem2, owned0, owned2, nodes0, nodes2, d[v := f])
  {
    var d', mem1' := d[v := f], mem1[f := ZeroFrame()];
    ValuesAfterAdd(d, v, f);
    GrewNodes(mem1', mem2, owned1 + {f}, owned2, nodes1, nodes2);
    MappedNodes(mem0, mem1, owned0, owned1, nodes0, nodes1, d);
    OwnedStep(owned0, owned1, owned2, nodes1.Values, nodes2.Values, d.Values, f);
    forall u | u in d' ensures d'[u] !in owned0 && d'[u] !in nodes2.Values && d'[u] < |mem2| && mem2[d'[u]] == ZeroFrame() {
      MappedStepFrame(mem0, mem1, mem2, owned0, owned1, owned2, nodes0, nodes1, nodes2, d, v, f, u);
    }
    MappedInjective(mem0, mem1, owned0, owned1, nodes0, nodes1, d);
    FreshInjective(d, v, f, owned1);
    forall q | 0 <= q < |mem2| && q !in nodes2.Values && q !in d'.Values ensures mem2[q] == mem0[q] {
      MappedStepRest(mem0, mem1, mem2, owned0, owned1, owned2, nodes0, nodes1, nodes2, d, v, f, q);
    }
  }

  lemma OwnedStep(owned0: set<nat>, owned1: set<nat>, owned2: set<nat>, n1: set<nat>, n2: set<nat>, frames: set<nat>, f: nat)
    requires owned1 == owned0 + n1 + frames && owned2 == owned1 + {f} + n2 && n1 <= n2
    ensures owned2 == owned0 + n2 + (frames + {f})
  {
  }

  lemma MappedStepRest(mem0: Mem, mem1: Mem, mem2: Mem, owned0: set<nat>, owned1: set<nat>, owned2: set<nat>,
                       nodes0: map<Path, nat>, nodes1: map<Path, nat>, nodes2: map<Path, nat>, d: map<nat, nat>, v: nat, f: nat, q: nat)
    requires Mapped(mem0, mem1, owned0, owned1, nodes0, nodes1, d) && v !in d && f < |mem1|
    requires Grew(mem1[f := ZeroFrame()], mem2, owned1 + {f}, owned2, nodes1, nodes2)
    requires q < |mem2| == |mem1| && q !in nodes2.Values && q !in d[v := f].Values
    ensures mem2[q] == mem0[q]
  {
    ValuesAfterAdd(d, v, f);
    GrewNodes(mem1[f := ZeroFrame()], mem2, owned1 + {f}, owned2, nodes1, nodes2);
    GrewRest(mem1[f := ZeroFrame()], mem2, owned1 + {f}, owned2, nodes1, nodes2, q);
    MappedRest(mem0, mem1, owned0, owned1, nodes0, nodes1, d, q);
  }

  lemma MappedStepFrame(mem0: Mem, mem1: Mem, mem2: Mem, owned0: set<nat>, owned1: set<nat>, owned2: set<nat>,
                        nodes0: map<Path, nat>, nodes1: map<Path, nat>, nodes2: map<Path, nat>, d: map<nat, nat>, v: nat, f: nat, u: nat)
    requires Mapped(mem0, mem1, owned0, owned1, nodes0, nodes1, d) && nodes0.Values <= owned0
    requires v !in d && f !in owned1 && f < |mem1| && u in d[v := f]
    requires Grew(mem1[f := ZeroFrame()], mem2, owned1 + {f}, owned2, nodes1, nodes2)
    ensures var g := d[v := f][u]; g !in owned0 && g !in nodes2.Values && g < |mem2| && mem2[g] == ZeroFrame()
  {
    if u != v {
      MappedFrame(mem0, mem1, owned0, owned1, nodes0, nodes1, d, u);
    }
    GrewOutside(mem1[f := ZeroFrame()], mem2, owned1 + {f}, owned2, nodes1, nodes2, d[v := f][u]);
  }

  lemma FreshInjective(d: map<nat, nat>, v: nat, f: nat, owned: set<nat>)
    requires InjectiveFrames(d) && v !in d && d.Values <= owned && f !in owned
    ensures InjectiveFrames(d[v := f])
  {
    forall u | u in d ensures d[u] != f {
      assert d[u] in d.Values;
    }
  }

  lemma GrewRest(mem0: Mem, mem: Mem, owned0: set<nat>, owned: set<nat>, nodes0: map<Path, nat>, nodes: map<Path, nat>, q: nat)
    requires Grew(mem0, mem, owned0, owned, nodes0, nodes) && q < |mem| && q !in nodes.Values
    ensures mem[q] == mem0[q]
  {
    assert GrewOpened(0);
  }

  lemma MappedRest(mem0: Mem, mem: Mem, owned0: set<nat>, owned: set<nat>, nodes0: map<Path, nat>, nodes: map<Path, nat>,
                   d: map<nat, nat>, q: nat)
    requires Mapped(mem0, mem, owned0, owned, nodes0, nodes, d) && q < |mem| && q !in nodes.Values && q !in d.Values
    ensures mem[q] == mem0[q]
  {
    assert MappedOpened(0);
  }

  lemma MappedNodes(mem0: Mem, mem: Mem, owned0: set<nat>, owned: set<nat>, nodes0: map<Path, nat>, nodes: map<Path, nat>,
                    d: map<nat, nat>)
    requires Mapped(mem0, mem, owned0, owned, nodes0, nodes, d)
    ensures forall p :: p in nodes0 ==> p in nodes && nodes[p] == nodes0[p]
    ensures forall p :: p in nodes && p !in nodes0 ==> nodes[p] !in owned0
    ensures nodes0.Values <= nodes.Values
  {
    assert MappedOpened(0);
    ValuesExtend(nodes0, nodes);
  }

  lemma GrewNodes(mem0: Mem, mem: Mem, owned0: set<nat>, owned: set<nat>, nodes0: map<Path, nat>, nodes: map<Path, nat>)
    requires Grew(mem0, mem, owned0, owned, nodes0, nodes)
    ensures forall p :: p in nodes0 ==> p in nodes && nodes[p] == nodes0[p]
    ensures forall p :: p in nodes && p !in nodes0 ==> nodes[p] !in owned0
    ensures nodes0.Values <= nodes.Values
  {
    assert GrewOpened(0);
    ValuesExtend(nodes0, nodes);
  }

  lemma ValuesAfterAdd(d: map<nat, nat>, v: nat, f: nat)
    requires v !in d
    ensures d[v := f].Values == d.Values + {f}
  {
    var d' := d[v := f];
    assert d'[v] == f;
    forall g | g in d.Values ensures g in d'.Values {
      var u :| u in d && d[u] == g;
      assert d'[u] == g;
    }
  }

  lemma ValuesExtend(nodes: map<Path, nat>, nodes': map<Path, nat>)
    requires forall p :: p in nodes ==> p in nodes' && nodes'[p] == nodes[p]
    ensures nodes.Values <= nodes'.Values
  {
    forall f | f in nodes.Values ensures f in nodes'.Values {
      var p :| p in nodes && nodes[p] == f;
      assert nodes'[p] == f;
    }
  }

  /** The bindings of the pages `d`, all with the same permissions. */
  ghost function PtesOf(d: map<nat, nat>, perm: nat): map<nat, u64>
    requires perm < 256
  {
    map v | v in d && d[v] < PPN_LIMIT :: MakePte(d[v], WithV(perm))
  }

  /** The pages `d` are bound to their frames, valid and with the permissions `perm`. */
  ghost predicate BoundWith(b: map<nat, u64>, d: map<nat, nat>, perm: nat) {
    forall v :: v in d ==> v in b && PtePpn(b[v]) == d[v] && PteValid(b[v]) && PteFlags(b[v]) / 2 == perm / 2
  }

  lemma PtesBound(b: map<nat, u64>, d: map<nat, nat>, perm: nat)
    requires perm < 256 && forall v :: v in d ==> d[v] < PPN_LIMIT
    ensures BoundWith(b + PtesOf(d, perm), d, perm)
  {
    forall v | v in d ensures PtePpn(PtesOf(d, perm)[v]) == d[v] && PteValid(PtesOf(d, perm)[v]) && PteFlags(PtesOf(d, perm)[v]) / 2 == perm / 2 {
      PteRoundTrip(d[v], WithV(perm));
    }
  }

  /**
   `MapArea::map`: a fresh cleared frame for every page of the area, and a binding for each.
   Fails only when frames run out.
   */
  method MapPages(pm: PhysMem, table: Table, start: nat, end: nat, perm: nat) returns (ok: bool, frames: map<nat, nat>)
    requires table.Valid(pm) && start <= end <= VPN_LIMIT && perm < 256
    requires forall v :: start <= v < end ==> v !in table.Bindings(pm)
    modifies pm, table
    ensures !ok ==> pm.Available() == 0
    ensures ok ==>
              && table.Valid(pm) && Area(start, end, frames, perm).Complete()
              && Mapped(old(pm.mem), pm.mem, old(pm.owned), pm.owned, old(table.nodes), table.nodes, frames)
              && table.Bindings(pm) == old(table.Bindings(pm)) + PtesOf(frames, perm)
              && BoundWith(table.Bindings(pm), frames, perm)
  {
    frames := map[];
    var v := start;
    MappedNone(pm.mem, pm.owned, table.nodes);
    assert old(table.Bindings(pm)) + PtesOf(frames, perm) == old(table.Bindings(pm));
    while v < end
      invariant start <= v <= end && table.Valid(pm) && Area(start, v, frames, perm).Complete()
      invariant Mapped(old(pm.mem), pm.mem, old(pm.owned), pm.owned, old(table.nodes), table.nodes, frames)
      invariant table.Bindings(pm) == old(table.Bindings(pm)) + PtesOf(frames, perm)
    {
      ok, frames := MapOne(pm, table, v, perm, frames, old(pm.mem), old(pm.owned), old(table.nodes), old(table.Bindings(pm)));
      if !ok {
        return;
      }
      v := v + 1;
    }
    ghost var nodes0 := old(table.nodes);
    forall u | u in frames ensures frames[u] < PPN_LIMIT {
      MappedFrame(old(pm.mem), pm.mem, old(pm.owned), pm.owned, nodes0, table.nodes, frames, u);
    }
    PtesBound(old(table.Bindings(pm)), frames, perm);
    return true, frames;
  }

  method MapOne(pm: PhysMem, table: Table, v: nat, perm: nat, frames0: map<nat, nat>,
                ghost mem0: Mem, ghost owned0: set<nat>, ghost nodes0: map<Path, nat>, ghost b0: map<nat, u64>)
    returns (ok: bool, frames: map<nat, nat>)
    requires table.Valid(pm) && v < VPN_LIMIT && perm < 256 && v !in frames0 && v !in b0 && nodes0.Values <= owned0
    requires Mapped(mem0, pm.mem, owned0, pm.owned, nodes0, table.nodes, frames0)
    requires table.Bindings(pm) == b0 + PtesOf(frames0, perm)
    modifies pm, table
    ensures !ok ==> pm.Available() == 0
    ensures ok ==>
              && table.Valid(pm) && frames.Keys == frames0.Keys + {v}
              && Mapped(mem0, pm.mem, owned0, pm.owned, nodes0, table.nodes, frames)
              && table.Bindings(pm) == b0 + PtesOf(frames, perm)
  {
    ghost var mem1, owned1, nodes1 := pm.mem, pm.owned, table.nodes;
    var r := pm.FrameAlloc();
    if r.None? {
      return false, frames0;
    }
    var f := r.value;
    FrameOutsideTable(mem1, table.root, nodes1, f, owned1);
    frames := frames0[v := f];
    ok := table.Map(pm, v, f, perm);
    if ok {
      MappedStep(mem0, mem1, pm.mem, owned0, owned1, pm.owned, nodes0, nodes1, table.nodes, frames0, v, f);
      PtesAfterAdd(b0, frames0, perm, v, f);
    }
  }

  lemma FrameOutsideTable(mem: Mem, root: nat, nodes: map<Path, nat>, f: nat, owned: set<nat>)
    requires Tree(mem, root, nodes) && f < |mem| && nodes.Values <= owned && f !in owned
    ensures Tree(mem[f := ZeroFrame()], root, nodes) && TableMap(mem[f := ZeroFrame()], nodes) == TableMap(mem, nodes)
  {
    forall p | p in nodes ensures nodes[p] != f {
      assert nodes[p] in nodes.Values;
    }
    TreeFrame(mem, mem[f := ZeroFrame()], root, nodes);
  }

  lemma PtesAfterAdd(b: map<nat, u64>, d: map<nat, nat>, perm: nat, v: nat, f: nat)
    requires perm < 256 && v !in d && f < PPN_LIMIT
    ensures b + PtesOf(d[v := f], perm) == (b + PtesOf(d, perm))[v := MakePte(f, WithV(perm))]
  {
  }

  ghost predicate FramesOpened(k: int) { true }

  /** The frames behind the pages of a space: one each, owned, below `n`, and none of them in its table. */
  ghost predicate FramesOk(n: nat, owned: set<nat>, nodes: map<Path, nat>, data: map<nat, nat>) {
    forall o :: FramesOpened(o) ==>
      && InjectiveFrames(data)
      && forall v :: v in data ==> data[v] in owned && data[v] !in nodes.Values && data[v] < n
  }

  ghost predicate PageOk(b: map<nat, u64>, data: map<nat, nat>, a: Area, v: nat) {
    && v in data && v in a.frames && data[v] == a.frames[v] < PPN_LIMIT && a.perm < 256
    && v in b && b[v] == MakePte(data[v], WithV(a.perm))
  }

  ghost predicate AreaOk(b: map<nat, u64>, data: map<nat, nat>, a: Area) {
    a.Complete() && forall v :: a.Holds(v) ==> PageOk(b, data, a, v)
  }

  ghost predicate Disjoint(areas: seq<Area>) {
    forall k, m, v :: 0 <= k < m < |areas| && areas[k].Holds(v) ==> !areas[m].Holds(v)
  }

  ghost predicate Covered(areas: seq<Area>, data: map<nat, nat>) {
    forall v :: v in data ==> exists k :: 0 <= k < |areas| && areas[k].Holds(v)
  }

  ghost predicate AreasOpened(k: int) { true }

  /** The areas of a space are disjoint, hold exactly the pages `data`, and each page is bound to its frame. */
  ghost predicate AreasOk(b: map<nat, u64>, areas: seq<Area>, data: map<nat, nat>) {
    forall o :: AreasOpened(o) ==>
      (forall k :: 0 <= k < |areas| ==> AreaOk(b, data, areas[k])) && Disjoint(areas) && Covered(areas, data)
  }

  lemma FrameAt(n: nat, owned: set<nat>, nodes: map<Path, nat>, data: map<nat, nat>, v: nat)
    requires FramesOk(n, owned, nodes, data) && v in data
    ensures data[v] in owned && data[v] !in nodes.Values && data[v] < n
  {
    assert FramesOpened(0);
  }

  lemma AreaAt(b: map<nat, u64>, areas: seq<Area>, data: map<nat, nat>, k: nat)
    requires AreasOk(b, areas, data) && k < |areas|
    ensures AreaOk(b, data, areas[k])
  {
    assert AreasOpened(0);
  }

  /** The entry of a page of the space leads to its frame, with the permissions of the area that holds the page. */
  lemma PageBound(b: map<nat, u64>, areas: seq<Area>, data: map<nat, nat>, v: nat)
    requires AreasOk(b, areas, data) && v in data
    ensures v in b && v < VPN_LIMIT && PtePpn(b[v]) == data[v] && PteValid(b[v])
    ensures forall k :: 0 <= k < |areas| && areas[k].Holds(v) ==> areas[k].perm < 256 && PteFlags(b[v]) / 2 == areas[k].perm / 2
    ensures exists k :: 0 <= k < |areas| && areas[k].Holds(v)
  {
    assert AreasOpened(0);
    forall k | 0 <= k < |areas| && areas[k].Holds(v) ensures areas[k].perm < 256 && PteFlags(b[v]) / 2 == areas[k].perm / 2 {
      AreaAt(b, areas, data, k);
      assert PageOk(b, data, areas[k], v);
      PteRoundTrip(data[v], WithV(areas[k].perm));
    }
    var k :| 0 <= k < |areas| && areas[k].Holds(v);
    AreaAt(b, areas, data, k);
    assert PageOk(b, data, areas[k], v);
    PteRoundTrip(data[v], WithV(areas[k].perm));
  }

  lemma FramesFrame(n: nat, owned: set<nat>, owned': set<nat>, nodes: map<Path, nat>, nodes': map<Path, nat>, data: map<nat, nat>)
    requires FramesOk(n, owned, nodes, data)
    requires forall v :: v in data ==> data[v] in owned' && data[v] !in nodes'.Values
    ensures FramesOk(n, owned', nodes', data)
  {
    assert FramesOpened(0);
  }

  lemma FramesPush(mem0: Mem, mem: Mem, owned0: set<nat>, owned: set<nat>, nodes0: map<Path, nat>, nodes: map<Path, nat>,
                   data: map<nat, nat>, d: map<nat, nat>)
    requires FramesOk(|mem0|, owned0, nodes0, data) && Mapped(mem0, mem, owned0, owned, nodes0, nodes, d)
    requires forall v :: v in d ==> v !in data
    ensures FramesOk(|mem|, owned, nodes, data + d)
    ensures (data + d).Values == data.Values + d.Values
  {
    var data' := data + d;
    MappedInjective(mem0, mem, owned0, owned, nodes0, nodes, d);
    forall v | v in data' ensures data'[v] in owned && data'[v] !in nodes.Values && data'[v] < |mem| {
      PushedFrame(mem0, mem, owned0, owned, nodes0, nodes, data, d, v);
    }
    forall v | v in d ensures d[v] !in owned0 {
      MappedFrame(mem0, mem, owned0, owned, nodes0, nodes, d, v);
    }
    InjectiveUnion(|mem0|, owned0, nodes0, data, d);
    UnionValues(data, d);
  }

  lemma InjectiveUnion(n: nat, owned: set<nat>, nodes: map<Path, nat>, data: map<nat, nat>, d: map<nat, nat>)
    requires FramesOk(n, owned, nodes, data) && InjectiveFrames(d)
    requires forall v :: v in d ==> v !in data && d[v] !in owned
    ensures InjectiveFrames(data + d)
  {
    assert FramesOpened(0);
  }

  lemma PushedFrame(mem0: Mem, mem: Mem, owned0: set<nat>, owned: set<nat>, nodes0: map<Path, nat>, nodes: map<Path, nat>,
                    data: map<nat, nat>, d: map<nat, nat>, v: nat)
    requires FramesOk(|mem0|, owned0, nodes0, data) && Mapped(mem0, mem, owned0, owned, nodes0, nodes, d) && v in data + d
    ensures var f := (data + d)[v]; f in owned && f !in nodes.Values && f < |mem|
  {
    if v in d {
      MappedFrame(mem0, mem, owned0, owned, nodes0, nodes, d, v);
    } else {
      FrameAt(|mem0|, owned0, nodes0, data, v);
      MappedOutside(mem0, mem, owned0, owned, nodes0, nodes, d, data[v]);
    }
  }

  lemma UnionValues(data: map<nat, nat>, d: map<nat, nat>)
    requires forall v :: v in d ==> v !in data
    ensures (data + d).Values == data.Values + d.Values
  {
    var data' := data + d;
    forall f | f in data.Values ensures f in data'.Values {
      var v :| v in data && data[v] == f;
      assert data'[v] == f;
    }
    forall f | f in d.Values ensures f in data'.Values {
      var v :| v in d && d[v] == f;
      assert data'[v] == f;
    }
  }

  /** Adding an area with its freshly mapped frames. */
  lemma AreasPush(b: map<nat, u64>, areas: seq<Area>, data: map<nat, nat>, a: Area)
    requires AreasOk(b, areas, data) && a.Complete() && forall v :: v in a.frames ==> a.frames[v] < PPN_LIMIT
    requires forall v :: a.Holds(v) ==> v !in b
    ensures AreasOk(b + PtesOf(a.frames, a.perm), areas + [a], data + a.frames)
    ensures forall v :: v in a.frames ==> v !in data
  {
    var b', areas', data' := b + PtesOf(a.frames, a.perm), areas + [a], data + a.frames;
    forall k | 0 <= k < |areas'| ensures AreaOk(b', data', areas'[k]) {
      if k < |areas| {
        AreaAt(b, areas, data, k);
        AreaExtends(b, b', data, data', areas[k], a);
      } else {
        assert forall v :: a.Holds(v) ==> PageOk(b', data', a, v);
      }
    }
    forall v | v in a.frames ensures v !in data {
      if v in data {
        PageBound(b, areas, data, v);
        assert a.Holds(v);
      }
    }
    assert Disjoint(areas') && Covered(areas', data') by { AreasPushShape(b, areas, data, a); }
  }

  lemma AreaExtends(b: map<nat, u64>, b': map<nat, u64>, data: map<nat, nat>, data': map<nat, nat>, a: Area, c: Area)
    requires AreaOk(b, data, a) && c.Complete() && (forall v :: c.Holds(v) ==> v !in b)
    requires b' == b + PtesOf(c.frames, c.perm) && data' == data + c.frames
    ensures AreaOk(b', data', a)
  {
    forall v | a.Holds(v) ensures PageOk(b', data', a, v) {
      assert PageOk(b, data, a, v);
      assert !c.Holds(v);
    }
  }

  lemma AreasPushShape(b: map<nat, u64>, areas: seq<Area>, data: map<nat, nat>, a: Area)
    requires AreasOk(b, areas, data) && a.Complete() && forall v :: a.Holds(v) ==> v !in b
    ensures Disjoint(areas + [a]) && Covered(areas + [a], data + a.frames)
  {
    assert AreasOpened(0);
    var areas', data' := areas + [a], data + a.frames;
    forall k, m, v | 0 <= k < m < |areas'| && areas'[k].Holds(v) ensures !areas'[m].Holds(v) {
      if m == |areas| {
        assert AreaOk(b, data, areas[k]) && PageOk(b, data, areas[k], v);
      }
    }
    forall v | v in data' ensures exists k :: 0 <= k < |areas'| && areas'[k].Holds(v) {
      if v in a.frames {
        assert areas'[|areas|].Holds(v);
      } else {
        var k :| 0 <= k < |areas| && areas[k].Holds(v);
        assert areas'[k].Holds(v);
      }
    }
  }

  /** Owned frames outside the table are not touched by mapping. */
  lemma MappedOutside(mem0: Mem, mem: Mem, owned0: set<nat>, owned: set<nat>, nodes0: map<Path, nat>, nodes: map<Path, nat>,
                      d: map<nat, nat>, q: nat)
    requires Mapped(mem0, mem, owned0, owned, nodes0, nodes, d) && q in owned0 && q !in nodes0.Values
    ensures q !in nodes.Values && q !in d.Values && q in owned && (q < |mem| ==> mem[q] == mem0[q])
  {
    assert MappedOpened(0);
    forall p | p in nodes ensures nodes[p] != q {
      if p in nodes0 {
        assert nodes0[p] in nodes0.Values;
      }
    }
  }

  /** Frames of the pages `start..v` of an area. */
  ghost function FramesUpTo(a: Area, v: nat): set<nat>
    requires a.Complete() && a.start <= v <= a.end
  {
    set u | a.start <= u < v :: a.frames[u]
  }

  /** What unmapping needs to know of an area: its pages are bound and its frames are owned, one per page, outside the table. */
  ghost predicate Unmappable(a: Area, owned: set<nat>, nodes: map<Path, nat>, b: map<nat, u64>) {
    && a.Complete() && InjectiveFrames(a.frames)
    && forall v :: a.Holds(v) ==> v in b && a.frames[v] in owned && a.frames[v] !in nodes.Values
  }

  /**
   `MapArea::unmap`: the frame of every page is given back and its binding removed; the table
   keeps its frames, and only they are written.
   */
  method UnmapPages(pm: PhysMem, table: Table, a: Area)
    requires table.Valid(pm) && Unmappable(a, pm.owned, table.nodes, table.Bindings(pm))
    modifies pm
    ensures table.Valid(pm) && table.Bindings(pm) == old(table.Bindings(pm)) - a.frames.Keys
    ensures pm.owned == old(pm.owned) - a.frames.Values && |pm.mem| == old(|pm.mem|)
    ensures pm.Available() == old(pm.Available()) + (a.end - a.start)
    ensures forall q :: 0 <= q < |pm.mem| && q !in table.nodes.Values ==> pm.mem[q] == old(pm.mem)[q]
  {
    var v := a.start;
    UnmappedNone(pm.mem, pm.owned, table.nodes, table.Bindings(pm), a);
    while v < a.end
      invariant a.start <= v <= a.end && table.Valid(pm) && pm.Available() == old(pm.Available()) + (v - a.start)
      invariant Unmapped(old(pm.mem), pm.mem, old(pm.owned), pm.owned, table.nodes, old(table.Bindings(pm)), table.Bindings(pm), a, v)
    {
      UnmapOne(pm, table, a, v, old(pm.mem), old(pm.owned), old(table.Bindings(pm)));
      v := v + 1;
    }
    UnmappedAll(old(pm.mem), pm.mem, old(pm.owned), pm.owned, table.nodes, old(table.Bindings(pm)), table.Bindings(pm), a);
  }

  ghost predicate UnmappedOpened(k: int) { true }

  /** The pages of `a` below `v` have been unmapped and their frames given back. */
  ghost predicate Unmapped(mem0: Mem, mem: Mem, owned0: set<nat>, owned: set<nat>, nodes: map<Path, nat>,
                           b0: map<nat, u64>, b: map<nat, u64>, a: Area, v: nat)
  {
    && |mem| == |mem0| && a.Complete() && a.start <= v <= a.end
    && forall k :: UnmappedOpened(k) ==>
         && owned == owned0 - FramesUpTo(a, v) && b == b0 - (set u | u in a.frames && u < v)
         && forall q :: 0 <= q < |mem| && q !in nodes.Values ==> mem[q] == mem0[q]
  }

  lemma UnmappedNone(mem: Mem, owned: set<nat>, nodes: map<Path, nat>, b: map<nat, u64>, a: Area)
    requires a.Complete()
    ensures Unmapped(mem, mem, owned, owned, nodes, b, b, a, a.start)
  {
    assert FramesUpTo(a, a.start) == {};
    assert (set u | u in a.frames && u < a.start) == {};
    assert b - {} == b;
  }

  lemma UnmappedAll(mem0: Mem, mem: Mem, owned0: set<nat>, owned: set<nat>, nodes: map<Path, nat>,
                    b0: map<nat, u64>, b: map<nat, u64>, a: Area)
    requires Unmapped(mem0, mem, owned0, owned, nodes, b0, b, a, a.end)
    ensures owned == owned0 - a.frames.Values && b == b0 - a.frames.Keys
    ensures forall q :: 0 <= q < |mem| && q !in nodes.Values ==> mem[q] == mem0[q]
  {
    assert UnmappedOpened(0);
    assert (set u | u in a.frames && u < a.end) == a.frames.Keys;
    assert FramesUpTo(a, a.end) == a.frames.Values;
  }

  /** `unmap_one`: drop the tracker of the page, then clear its entry. */
  method UnmapOne(pm: PhysMem, table: Table, a: Area, v: nat, ghost mem0: Mem, ghost owned0: set<nat>, ghost b0: map<nat, u64>)
    requires table.Valid(pm) && Unmappable(a, owned0, table.nodes, b0) && a.Holds(v)
    requires Unmapped(mem0, pm.mem, owned0, pm.owned, table.nodes, b0, table.Bindings(pm), a, v)
    modifies pm
    ensures table.Valid(pm) && pm.Available() == old(pm.Available()) + 1
    ensures Unmapped(mem0, pm.mem, owned0, pm.owned, table.nodes, b0, table.Bindings(pm), a, v + 1)
  {
    ghost var owned1, b1 := pm.owned, table.Bindings(pm);
    UnmapStep(mem0, pm.mem, owned0, owned1, table.nodes, b0, b1, a, v);
    pm.FrameDealloc(a.frames[v]);
    ghost var mem1 := pm.mem;
    table.Unmap(pm, v);
    UnmapStepDone(mem0, mem1, pm.mem, owned0, owned1, pm.owned, table.nodes, b0, b1, table.Bindings(pm), a, v);
  }

  lemma UnmapStep(mem0: Mem, mem: Mem, owned0: set<nat>, owned: set<nat>, nodes: map<Path, nat>, b0: map<nat, u64>, b: map<nat, u64>,
                  a: Area, v: nat)
    requires Unmappable(a, owned0, nodes, b0) && a.Holds(v) && Unmapped(mem0, mem, owned0, owned, nodes, b0, b, a, v)
    ensures a.frames[v] in owned && a.frames[v] !in nodes.Values && v in b
  {
    assert UnmappedOpened(0);
  }

  lemma UnmapStepDone(mem0: Mem, mem1: Mem, mem: Mem, owned0: set<nat>, owned1: set<nat>, owned: set<nat>, nodes: map<Path, nat>,
                      b0: map<nat, u64>, b1: map<nat, u64>, b: map<nat, u64>, a: Area, v: nat)
    requires a.Complete() && a.Holds(v) && Unmapped(mem0, mem1, owned0, owned1, nodes, b0, b1, a, v)
    requires owned == owned1 - {a.frames[v]} && b == b1 - {v} && Grew(mem1, mem, owned, owned, nodes, nodes)
    ensures Unmapped(mem0, mem, owned0, owned, nodes, b0, b, a, v + 1)
  {
    assert UnmappedOpened(0) && GrewOpened(0);
    assert FramesUpTo(a, v + 1) == FramesUpTo(a, v) + {a.frames[v]};
    assert (set u | u in a.frames && u < v + 1) == (set u | u in a.frames && u < v) + {v};
  }

  lemma AreaUnmappable(n: nat, owned: set<nat>, nodes: map<Path, nat>, b: map<nat, u64>, areas: seq<Area>, data: map<nat, nat>, k: nat)
    requires FramesOk(n, owned, nodes, data) && AreasOk(b, areas, data) && k < |areas|
    ensures Unmappable(areas[k], owned, nodes, b)
  {
    AreaAt(b, areas, data, k);
    var a := areas[k];
    forall v | a.Holds(v) ensures v in b && a.frames[v] in owned && a.frames[v] !in nodes.Values {
      assert PageOk(b, data, a, v);
      FrameAt(n, owned, nodes, data, v);
    }
    assert FramesOpened(0);
    forall v, w | v in a.frames && w in a.frames && a.frames[v] == a.frames[w] ensures v == w {
      assert a.Holds(v) && a.Holds(w);
      assert PageOk(b, data, a, v) && PageOk(b, data, a, w);
    }
  }

  lemma AreaInjective(n: nat, owned: set<nat>, nodes: map<Path, nat>, b: map<nat, u64>, areas: seq<Area>, data: map<nat, nat>, k: nat)
    requires FramesOk(n, owned, nodes, data) && AreasOk(b, areas, data) && k < |areas|
    ensures areas[k].Complete() && InjectiveFrames(areas[k].frames)
  {
    AreaUnmappable(n, owned, nodes, b, areas, data, k);
  }

  lemma FramesRemove(n: nat, owned: set<nat>, nodes: map<Path, nat>, b: map<nat, u64>, areas: seq<Area>, data: map<nat, nat>, k: nat)
    requires FramesOk(n, owned, nodes, data) && AreasOk(b, areas, data) && k < |areas|
    ensures FramesOk(n, owned - areas[k].frames.Values, nodes, data - areas[k].frames.Keys)
  {
    AreaAt(b, areas, data, k);
    var a := areas[k];
    assert FramesOpened(0);
    var data' := data - a.frames.Keys;
    forall v | v in data' ensures data'[v] !in a.frames.Values {
      forall u | u in a.frames ensures a.frames[u] != data[v] {
        assert a.Holds(u) && PageOk(b, data, a, u);
      }
    }
  }

  /** An area disjoint from `a` does not notice that the pages of `a` go away. */
  lemma AreaSurvives(b: map<nat, u64>, data: map<nat, nat>, a: Area, other: Area)
    requires AreaOk(b, data, a) && AreaOk(b, data, other) && forall v :: other.Holds(v) ==> !a.Holds(v)
    ensures AreaOk(b - a.frames.Keys, data - a.frames.Keys, other)
  {
    forall v | other.Holds(v) ensures PageOk(b - a.frames.Keys, data - a.frames.Keys, other, v) {
      assert PageOk(b, data, other, v) && !a.Holds(v);
    }
  }

  lemma AreasRemove(b: map<nat, u64>, areas: seq<Area>, data: map<nat, nat>, k: nat)
    requires AreasOk(b, areas, data) && k < |areas|
    ensures AreasOk(b - areas[k].frames.Keys, areas[..k] + areas[k + 1..], data - areas[k].frames.Keys)
  {
    assert AreasOpened(0);
    var a, areas' := areas[k], areas[..k] + areas[k + 1..];
    var b', data' := b - a.frames.Keys, data - a.frames.Keys;
    forall m | 0 <= m < |areas'| ensures AreaOk(b', data', areas'[m]) {
      var j := if m < k then m else m + 1;
      AreaSurvives(b, data, a, areas[j]);
      assert areas'[m] == areas[j];
    }
    RemoveCovered(b, areas, data, k);
    RemoveDisjoint(areas, k);
  }

  lemma RemoveCovered(b: map<nat, u64>, areas: seq<Area>, data: map<nat, nat>, k: nat)
    requires k < |areas| && AreaOk(b, data, areas[k]) && Covered(areas, data)
    ensures Covered(areas[..k] + areas[k + 1..], data - areas[k].frames.Keys)
  {
    var areas' := areas[..k] + areas[k + 1..];
    forall v | v in data - areas[k].frames.Keys ensures exists m :: 0 <= m < |areas'| && areas'[m].Holds(v) {
      var j :| 0 <= j < |areas| && areas[j].Holds(v);
      assert j != k;
      assert areas'[if j < k then j else j - 1] == areas[j];
    }
  }

  lemma RemoveDisjoint(areas: seq<Area>, k: nat)
    requires Disjoint(areas) && k < |areas|
    ensures Disjoint(areas[..k] + areas[k + 1..])
  {
    var areas' := areas[..k] + areas[k + 1..];
    assert forall m :: 0 <= m < |areas'| ==> areas'[m] == areas[if m < k then m else m + 1];
  }
}
