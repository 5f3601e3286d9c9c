/**
 The address space of a process (os/src/mm/memory_set.rs): inserting and removing areas, and
 loading data into them.
 */
module MemorySets {
  import opened Bytes
  import opened PhysMemory
  import opened PageTable
  import opened MapArea

  /** Page of the trampoline, the last one of the address space, and its permissions R and X. */
  const TRAMPOLINE: nat := 0x7FF_FFFF
  const TRAMPOLINE_FLAGS: nat := 10

  /** Page `i` of some data, the rest of the page being zero. */
  function PageOf(data: seq<byte>, i: nat): (f: Frame)
    ensures forall x :: 0 <= x < 4096 ==> f[x] == if 4096 * i + x < |data| then data[4096 * i + x] else 0
  {
    seq(4096, x requires 0 <= x < 4096 => if 4096 * i + x < |data| then data[4096 * i + x] else 0)
  }

  class MemorySet {
    const table: Table
    var areas: seq<Area>
    /** The frame behind every page of the areas. */
    ghost var data: map<nat, nat>

    ghost predicate Valid(pm: PhysMem)
      reads this, table, pm
    {
      && table.Valid(pm) && AreasOk(table.Bindings(pm), areas, data)
      && FramesOk(|pm.mem|, pm.owned, table.nodes, data)
    }

    /** The frames the space owns: those of its table and those of its pages. */
    ghost function Footprint(): set<nat>
      reads this, table
    {
      table.nodes.Values + data.Values
    }

    constructor (t: Table)
      ensures table == t && areas == [] && data == map[]
    {
      table, areas, data := t, [], map[];
    }

    /**
     `insert_framed_area`: every page of the range gets a cleared frame of its own. Frames
     owned before, other than those of this table, keep their contents. Fails only when frames run out.
     */
    method Insert(pm: PhysMem, start: nat, end: nat, perm: nat) returns (ok: bool)
      requires Valid(pm) && start <= end <= VPN_LIMIT && perm < 256
      requires forall v :: start <= v < end ==> v !in table.Bindings(pm)
      modifies this, table, pm
      ensures !ok ==> pm.Available() == 0
      ensures ok ==>
                && Valid(pm) && |areas| == |old(areas)| + 1 && areas[..|old(areas)|] == old(areas)
                && var a := areas[|old(areas)|];
                && a.Complete() && a.start == start && a.end == end && a.perm == perm
                && Mapped(old(pm.mem), pm.mem, old(pm.owned), pm.owned, old(table.nodes), table.nodes, a.frames)
                && data == old(data) + a.frames && data.Values == old(data).Values + a.frames.Values
                && table.Bindings(pm) == old(table.Bindings(pm)) + PtesOf(a.frames, perm)
    {
      ghost var mem0, owned0, nodes0, b0 := pm.mem, pm.owned, table.nodes, table.Bindings(pm);
      var frames;
      ok, frames := MapPages(pm, table, start, end, perm);
      if ok {
        var a := Area(start, end, frames, perm);
        PushedArea(mem0, pm.mem, owned0, pm.owned, nodes0, table.nodes, b0, areas, data, a);
        areas, data := areas + [a], data + frames;
      }
    }

    /**
     `remove_area_with_start_vpn`: the first area that starts there goes, with its bindings and
     its frames, which are free again; without such an area nothing happens.
     */
    method Remove(pm: PhysMem, start: nat) returns (ghost k: nat)
      requires Valid(pm)
      modifies this, pm
      ensures Valid(pm) && |pm.mem| == old(|pm.mem|) && k <= |old(areas)|
      ensures k < |old(areas)| ==> old(areas)[k].start == start
      ensures forall m :: 0 <= m < k ==> old(areas)[m].start != start
      ensures forall q :: 0 <= q < |pm.mem| && q !in table.nodes.Values ==> pm.mem[q] == old(pm.mem)[q]
      ensures k == |old(areas)| ==> areas == old(areas) && data == old(data) && pm.owned == old(pm.owned) && pm.mem == old(pm.mem)
                                    && table.Bindings(pm) == old(table.Bindings(pm))
      ensures k < |old(areas)| ==>
                && var a := old(areas)[k];
                && areas == old(areas)[..k] + old(areas)[k + 1..] && data == old(data) - a.frames.Keys
                && pm.owned == old(pm.owned) - a.frames.Values
                && table.Bindings(pm) == old(table.Bindings(pm)) - a.frames.Keys
    {
      var i := 0;
      while i < |areas| && areas[i].start != start
        invariant 0 <= i <= |areas| && forall m :: 0 <= m < i ==> areas[m].start != start
        modifies {}
      {
        i := i + 1;
      }
      k := i;
      if i < |areas| {
        ghost var n, owned0, b0 := |pm.mem|, pm.owned, table.Bindings(pm);
        AreaUnmappable(n, owned0, table.nodes, b0, areas, data, i);
        FramesRemove(n, owned0, table.nodes, b0, areas, data, i);
        AreasRemove(b0, areas, data, i);
        UnmapPages(pm, table, areas[i]);
        data := data - areas[i].frames.Keys;
        areas := areas[..i] + areas[i + 1..];
      }
    }

    /** Overwrite the frame behind page `v`, found through the table. */
    method SetPage(pm: PhysMem, v: nat, f: Frame)
      requires Valid(pm) && v in data
      modifies pm`mem
      ensures Valid(pm) && |pm.mem| == old(|pm.mem|) && data[v] < |pm.mem| && pm.mem == old(pm.mem)[data[v] := f]
      ensures table.Bindings(pm) == old(table.Bindings(pm))
    {
      var ppn := PpnOf(pm, v);
      TableUntouched(pm.mem, table.root, table.nodes, ppn, f);
      pm.SetFrame(ppn, f);
    }

    /** `translate(v).unwrap().ppn()` for a page of the space. */
    method PpnOf(pm: PhysMem, v: nat) returns (ppn: nat)
      requires Valid(pm) && v in data
      ensures ppn == data[v] && ppn < |pm.mem| && ppn in pm.owned && ppn !in table.nodes.Values
    {
      PageBound(table.Bindings(pm), areas, data, v);
      FrameAt(|pm.mem|, pm.owned, table.nodes, data, v);
      var pte := table.Translate(pm, v);
      ppn := PtePpn(pte.value);
    }

    /**
     `copy_data` into the last area, whose frames are still clear: page `i` of the area then
     holds page `i` of the data, and nothing else has changed.
     */
    method CopyData(pm: PhysMem, bytes: seq<byte>)
      requires Valid(pm) && |areas| > 0
      requires var a := areas[|areas| - 1]; a.start < a.end && |bytes| <= 4096 * (a.end - a.start) && AreaHolds(pm.mem, a, [])
      modifies pm`mem
      ensures Valid(pm) && |pm.mem| == old(|pm.mem|) && AreaHolds(pm.mem, areas[|areas| - 1], bytes)
      ensures forall q :: 0 <= q < |pm.mem| && q !in areas[|areas| - 1].frames.Values ==> pm.mem[q] == old(pm.mem)[q]
    {
      var a := areas[|areas| - 1];
      AreaInjective(|pm.mem|, pm.owned, table.nodes, table.Bindings(pm), areas, data, |areas| - 1);
      LoadedNone(pm.mem, a, bytes);
      var i := 0;
      while true
        invariant 0 <= i && a.start + i < a.end && 4096 * i <= |bytes|
        invariant Valid(pm) && LoadedTo(old(pm.mem), pm.mem, a, bytes, i)
        decreases a.end - (a.start + i)
      {
        CopyPage(pm, a, |areas| - 1, i, bytes, old(pm.mem));
        i := i + 1;
        if 4096 * i >= |bytes| {
          break;
        }
      }
      LoadedAll(old(pm.mem), pm.mem, a, bytes, i);
    }

    method CopyPage(pm: PhysMem, a: Area, ghost k: nat, i: nat, bytes: seq<byte>, ghost mem0: Mem)
      requires Valid(pm) && k < |areas| && a == areas[k] && InjectiveFrames(a.frames)
      requires a.start + i < a.end && 4096 * i <= |bytes| && LoadedTo(mem0, pm.mem, a, bytes, i)
      modifies pm`mem
      ensures Valid(pm) && LoadedTo(mem0, pm.mem, a, bytes, i + 1)
    {
      AreaAt(table.Bindings(pm), areas, data, k);
      var v := a.start + i;
      assert a.Holds(v) && PageOk(table.Bindings(pm), data, a, v);
      var src := bytes[4096 * i..if |bytes| < 4096 * i + 4096 then |bytes| else 4096 * i + 4096];
      LoadStep(mem0, pm.mem, a, bytes, i, src);
      var ppn := PpnOf(pm, v);
      SetPage(pm, v, src + pm.mem[ppn][|src|..]);
    }
  }

  ghost predicate HoldsOpened(k: int) { true }

  /** The frames of an area hold the pages of `bytes`, padded with zeros. */
  ghost predicate AreaHolds(mem: Mem, a: Area, bytes: seq<byte>) {
    forall k :: HoldsOpened(k) ==> forall v :: v in a.frames ==> a.start <= v && a.frames[v] < |mem| && mem[a.frames[v]] == PageOf(bytes, v - a.start)
  }

  lemma LoadedNone(mem: Mem, a: Area, bytes: seq<byte>)
    requires AreaHolds(mem, a, [])
    ensures LoadedTo(mem, mem, a, bytes, 0)
  {
    assert HoldsOpened(0);
    forall v | v in a.frames ensures a.start <= v && a.frames[v] < |mem| && mem[a.frames[v]] == ZeroFrame() {
      assert PageOf([], v - a.start) == ZeroFrame();
    }
  }

  ghost predicate LoadedOpened(k: int) { true }

  /** The first `n` pages of the area hold their part of the data, the others are still clear. */
  ghost predicate LoadedTo(mem0: Mem, mem: Mem, a: Area, bytes: seq<byte>, n: nat) {
    && |mem| == |mem0|
    && forall k :: LoadedOpened(k) ==>
         && (forall v :: v in a.frames ==> a.start <= v && a.frames[v] < |mem|
                                           && mem[a.frames[v]] == if v < a.start + n then PageOf(bytes, v - a.start) else ZeroFrame())
         && (forall q :: 0 <= q < |mem| && q !in a.frames.Values ==> mem[q] == mem0[q])
  }

  lemma LoadStep(mem0: Mem, mem: Mem, a: Area, bytes: seq<byte>, i: nat, src: seq<byte>)
    requires LoadedTo(mem0, mem, a, bytes, i) && a.Complete() && InjectiveFrames(a.frames) && a.start + i < a.end
    requires 4096 * i <= |bytes| && src == bytes[4096 * i..if |bytes| < 4096 * i + 4096 then |bytes| else 4096 * i + 4096]
    ensures var ppn := a.frames[a.start + i];
            && ppn < |mem| && LoadedTo(mem0, mem[ppn := src + mem[ppn][|src|..]], a, bytes, i + 1)
  {
    assert LoadedOpened(0);
    var v := a.start + i;
    var ppn := a.frames[v];
    var f: Frame := src + mem[ppn][|src|..];
    assert f == PageOf(bytes, i);
    assert ppn in a.frames.Values;
  }

  lemma LoadedAll(mem0: Mem, mem: Mem, a: Area, bytes: seq<byte>, i: nat)
    requires LoadedTo(mem0, mem, a, bytes, i) && a.Complete() && |bytes| <= 4096 * i
    ensures AreaHolds(mem, a, bytes)
    ensures forall q :: 0 <= q < |mem| && q !in a.frames.Values ==> mem[q] == mem0[q]
  {
    assert LoadedOpened(0);
    forall v | v in a.frames ensures a.frames[v] < |mem| && mem[a.frames[v]] == PageOf(bytes, v - a.start) {
      if v >= a.start + i {
        assert PageOf(bytes, v - a.start) == ZeroFrame();
      }
    }
  }

  /** Writing a frame outside a table leaves the table alone. */
  lemma TableUntouched(mem: Mem, root: nat, nodes: map<Path, nat>, q: nat, f: Frame)
    requires Tree(mem, root, nodes) && q < |mem| && q !in nodes.Values
    ensures Tree(mem[q := f], root, nodes) && TableMap(mem[q := f], nodes) == TableMap(mem, nodes)
  {
    forall p | p in nodes ensures nodes[p] != q {
      assert nodes[p] in nodes.Values;
    }
    TreeFrame(mem, mem[q := f], root, nodes);
  }

  lemma PushedArea(mem0: Mem, mem: Mem, owned0: set<nat>, owned: set<nat>, nodes0: map<Path, nat>, nodes: map<Path, nat>,
                   b0: map<nat, u64>, areas: seq<Area>, data: map<nat, nat>, a: Area)
    requires AreasOk(b0, areas, data) && FramesOk(|mem0|, owned0, nodes0, data) && a.Complete() && |mem| <= PPN_LIMIT
    requires Mapped(mem0, mem, owned0, owned, nodes0, nodes, a.frames)
    requires forall v :: a.Holds(v) ==> v !in b0
    ensures AreasOk(b0 + PtesOf(a.frames, a.perm), areas + [a], data + a.frames)
    ensures FramesOk(|mem|, owned, nodes, data + a.frames) && (data + a.frames).Values == data.Values + a.frames.Values
  {
    forall v | v in a.frames ensures a.frames[v] < PPN_LIMIT {
      MappedFrame(mem0, mem, owned0, owned, nodes0, nodes, a.frames, v);
    }
    AreasPush(b0, areas, data, a);
    FramesPush(mem0, mem, owned0, owned, nodes0, nodes, data, a.frames);
  }
}
