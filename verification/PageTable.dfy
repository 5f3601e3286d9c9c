/**
 The three-level Sv39 page table (os/src/mm/page_table.rs; format of section 4.4 of the RISC-V
 Privileged Architecture): a tree of pointers inside physical memory that refines a finite
 map from 27-bit page numbers to entries.
 */
module PageTable {
  import opened Basics
  import opened Options
  import opened PhysMemory

  const VPN_LIMIT: nat := 0x800_0000
  const PPN_LIMIT: nat := 0x1000_0000_0000

  /** `PageTableEntry::new`: flags in the low ten bits, of which eight are used. */
  function MakePte(ppn: nat, flags: nat): u64
    requires ppn < PPN_LIMIT && flags < 256
  {
    1024 * ppn + flags
  }

  function PtePpn(e: u64): nat { e / 1024 % PPN_LIMIT }
  function PteFlags(e: u64): nat { e % 256 }
  predicate PteValid(e: u64) { e % 2 == 1 }

  /** `flags | PTEFlags::V`. */
  function WithV(flags: nat): (r: nat)
    requires flags < 256
    ensures r < 256 && r % 2 == 1 && r / 2 == flags / 2
  {
    if flags % 2 == 1 then flags else flags + 1
  }

  lemma PteRoundTrip(ppn: nat, flags: nat)
    requires ppn < PPN_LIMIT && flags < 256
    ensures PtePpn(MakePte(ppn, flags)) == ppn && PteFlags(MakePte(ppn, flags)) == flags
    ensures PteValid(MakePte(ppn, flags)) <==> flags % 2 == 1
  {
    PteDiv(ppn, flags);
    PteMod(ppn, flags);
  }

  lemma PteDiv(ppn: nat, flags: nat)
    requires flags < 256
    ensures (1024 * ppn + flags) / 1024 == ppn
  {
  }

  lemma PteMod(ppn: nat, flags: nat)
    requires flags < 256
    ensures (1024 * ppn + flags) % 256 == flags && (1024 * ppn + flags) % 2 == flags % 2
  {
    Mod256(4 * ppn, flags);
    Mod2(512 * ppn, flags);
  }

  lemma Mod256(k: nat, r: nat)
    requires r < 256
    ensures (256 * k + r) % 256 == r
  {
  }

  lemma Mod2(k: nat, r: nat)
    ensures (2 * k + r) % 2 == r % 2
  {
  }

  /** Index of `vpn` at level `i` of the table, the root being level 0. */
  function Index(vpn: nat, i: nat): (r: nat)
    ensures r < 512
  {
    if i == 0 then vpn / 0x4_0000 % 512 else if i == 1 then vpn / 512 % 512 else vpn % 512
  }

  /** Different page numbers take different ways through the table. */
  lemma IndexInjective(v: nat, w: nat)
    requires v < VPN_LIMIT && w < VPN_LIMIT
    requires Index(v, 0) == Index(w, 0) && Index(v, 1) == Index(w, 1) && Index(v, 2) == Index(w, 2)
    ensures v == w
  {
    assert v / 0x4_0000 == v / 512 / 512 && w / 0x4_0000 == w / 512 / 512;
  }

  /** The indexes are the nine-bit digits of the page number, the most significant at the root. */
  lemma IndexDigits(vpn: nat)
    requires vpn < VPN_LIMIT
    ensures Index(vpn, 0) * 262144 + Index(vpn, 1) * 512 + Index(vpn, 2) == vpn
  {
    assert vpn / 0x4_0000 == vpn / 512 / 512;
  }

  /** `VirtPageNum::indexes`: nine bits at a time, from the last level up. */
  method Indexes(vpn: nat) returns (idx: seq<nat>)
    ensures |idx| == 3 && forall i :: 0 <= i < 3 ==> idx[i] == Index(vpn, i) < 512
    ensures vpn < VPN_LIMIT ==> idx[0] * 262144 + idx[1] * 512 + idx[2] == vpn
  {
    if vpn < VPN_LIMIT { IndexDigits(vpn); }
    var v := vpn;
    idx := [0, 0, 0];
    var i := 3;
    while i > 0
      invariant 0 <= i <= 3 && |idx| == 3
      invariant v == if i == 3 then vpn else if i == 2 then vpn / 512 else if i == 1 then vpn / 512 / 512 else v
      invariant forall k :: i <= k < 3 ==> idx[k] == Index(vpn, k)
    {
      i := i - 1;
      idx := idx[i := v % 512];
      assert i == 0 ==> vpn / 512 / 512 == vpn / 0x4_0000;
      v := v / 512;
    }
  }

  /** The frames of a table by their place in the tree. */
  datatype Path = Root | Mid(i: nat) | Leaf(i: nat, j: nat)

  function Child(p: Path, i: nat): Path
    requires !p.Leaf?
  {
    if p.Root? then Mid(i) else Leaf(p.i, i)
  }

  /** The node at level `n` on the way of `vpn`. */
  function PathAt(vpn: nat, n: nat): Path {
    if n == 0 then Root else if n == 1 then Mid(Index(vpn, 0)) else Leaf(Index(vpn, 0), Index(vpn, 1))
  }

  predicate InRange(p: Path) {
    (p.Mid? ==> p.i < 512) && (p.Leaf? ==> p.i < 512 && p.j < 512)
  }

  ghost predicate Injective(nodes: map<Path, nat>) {
    forall p, q :: p in nodes && q in nodes && nodes[p] == nodes[q] ==> p == q
  }

  /** Entry `i` of the inner node at `p` is valid exactly when it points to the node below, with no permissions. */
  ghost predicate EdgeOk(mem: Mem, nodes: map<Path, nat>, p: Path, i: nat)
    requires p in nodes && !p.Leaf? && i < 512
  {
    EdgeIs(Entry(mem, nodes[p], i), nodes, Child(p, i))
  }

  ghost predicate EdgeIs(e: u64, nodes: map<Path, nat>, child: Path) {
    (PteValid(e) <==> child in nodes) && (PteValid(e) ==> PtePpn(e) == nodes[child] && PteFlags(e) == 1)
  }

  ghost predicate TreeOpened(k: int) { true }

  /** The frames `nodes` form an unshared tree of the three-level format with the given root. */
  ghost predicate Tree(mem: Mem, root: nat, nodes: map<Path, nat>) {
    && Root in nodes && nodes[Root] == root
    && forall k :: TreeOpened(k) ==>
         && Injective(nodes)
         && (forall p :: p in nodes ==> nodes[p] < |mem| && InRange(p))
         && (forall p :: p in nodes && p.Leaf? ==> Mid(p.i) in nodes)
         && (forall p, i :: p in nodes && !p.Leaf? && 0 <= i < 512 ==> EdgeOk(mem, nodes, p, i))
  }

  lemma TreeEdge(mem: Mem, root: nat, nodes: map<Path, nat>, p: Path, i: nat)
    requires Tree(mem, root, nodes) && p in nodes && !p.Leaf? && i < 512
    ensures EdgeOk(mem, nodes, p, i) && nodes[p] < |mem| && InRange(p)
  {
    assert TreeOpened(0);
  }

  lemma TreeNode(mem: Mem, root: nat, nodes: map<Path, nat>, p: Path)
    requires Tree(mem, root, nodes) && p in nodes
    ensures nodes[p] < |mem| && InRange(p)
  {
    assert TreeOpened(0);
  }

  lemma TreeDiffer(mem: Mem, root: nat, nodes: map<Path, nat>, p: Path, q: Path)
    requires Tree(mem, root, nodes) && p in nodes && q in nodes && p != q
    ensures nodes[p] != nodes[q]
  {
    assert TreeOpened(0);
  }

  lemma TreeParent(mem: Mem, root: nat, nodes: map<Path, nat>, p: Path)
    requires Tree(mem, root, nodes) && p in nodes && p.Leaf?
    ensures Mid(p.i) in nodes
  {
    assert TreeOpened(0);
  }

  /** The entry of `vpn` in its last-level table; zero, which is not valid, when there is no such table. */
  ghost function Lookup(mem: Mem, nodes: map<Path, nat>, vpn: nat): u64 {
    if PathAt(vpn, 2) in nodes then Entry(mem, nodes[PathAt(vpn, 2)], Index(vpn, 2)) else 0
  }

  /** The finite map a table stands for. */
  ghost function TableMap(mem: Mem, nodes: map<Path, nat>): map<nat, u64> {
    map v | 0 <= v < VPN_LIMIT && PteValid(Lookup(mem, nodes, v)) :: Lookup(mem, nodes, v)
  }

  /** A table whose frames are untouched is the same table. */
  lemma TreeFrame(mem: Mem, mem': Mem, root: nat, nodes: map<Path, nat>)
    requires Tree(mem, root, nodes) && |mem'| == |mem|
    requires forall p :: p in nodes && nodes[p] < |mem| ==> mem'[nodes[p]] == mem[nodes[p]]
    ensures Tree(mem', root, nodes) && TableMap(mem', nodes) == TableMap(mem, nodes)
  {
    assert TreeOpened(0);
    forall p, i | p in nodes && !p.Leaf? && 0 <= i < 512 ensures EdgeOk(mem', nodes, p, i) {
      assert EdgeOk(mem, nodes, p, i);
    }
    assert forall v :: Lookup(mem', nodes, v) == Lookup(mem, nodes, v);
  }

  /** Writing a last-level entry changes no edge and one binding. */
  lemma SetLeaf(mem: Mem, root: nat, nodes: map<Path, nat>, vpn: nat, e: u64)
    requires Tree(mem, root, nodes) && vpn < VPN_LIMIT && PathAt(vpn, 2) in nodes
    ensures var mem' := PutEntry(mem, nodes[PathAt(vpn, 2)], Index(vpn, 2), e);
            && Tree(mem', root, nodes)
            && TableMap(mem', nodes) == if PteValid(e) then TableMap(mem, nodes)[vpn := e] else TableMap(mem, nodes) - {vpn}
  {
    assert TreeOpened(0);
    var leaf, k := PathAt(vpn, 2), Index(vpn, 2);
    var mem' := PutEntry(mem, nodes[leaf], k, e);
    forall p, i | p in nodes && !p.Leaf? && 0 <= i < 512 ensures EdgeOk(mem', nodes, p, i) {
      assert EdgeOk(mem, nodes, p, i);
      assert nodes[p] != nodes[leaf];
      EntryOfPut(mem, nodes[leaf], k, e, nodes[p], i);
    }
    SetLeafMap(mem, root, nodes, vpn, e);
  }

  lemma SetLeafMap(mem: Mem, root: nat, nodes: map<Path, nat>, vpn: nat, e: u64)
    requires Tree(mem, root, nodes) && vpn < VPN_LIMIT && PathAt(vpn, 2) in nodes
    ensures var mem' := PutEntry(mem, nodes[PathAt(vpn, 2)], Index(vpn, 2), e);
            TableMap(mem', nodes) == if PteValid(e) then TableMap(mem, nodes)[vpn := e] else TableMap(mem, nodes) - {vpn}
  {
    SetLeafLookup(mem, root, nodes, vpn, e);
  }

  lemma SetLeafLookup(mem: Mem, root: nat, nodes: map<Path, nat>, vpn: nat, e: u64)
    requires Tree(mem, root, nodes) && vpn < VPN_LIMIT && PathAt(vpn, 2) in nodes
    ensures var mem' := PutEntry(mem, nodes[PathAt(vpn, 2)], Index(vpn, 2), e);
            forall v :: 0 <= v < VPN_LIMIT ==> Lookup(mem', nodes, v) == if v == vpn then e else Lookup(mem, nodes, v)
  {
    assert TreeOpened(0);
    var leaf, k := PathAt(vpn, 2), Index(vpn, 2);
    var mem' := PutEntry(mem, nodes[leaf], k, e);
    forall v | 0 <= v < VPN_LIMIT ensures Lookup(mem', nodes, v) == if v == vpn then e else Lookup(mem, nodes, v) {
      if PathAt(v, 2) in nodes {
        EntryOfPut(mem, nodes[leaf], k, e, nodes[PathAt(v, 2)], Index(v, 2));
        if nodes[PathAt(v, 2)] == nodes[leaf] && Index(v, 2) == k {
          IndexInjective(v, vpn);
        }
      }
    }
  }

  /** Hanging a cleared frame below an empty entry gives a larger tree for the same map. */
  lemma AddNode(mem: Mem, root: nat, nodes: map<Path, nat>, p: Path, i: nat, f: nat)
    requires Tree(mem, root, nodes) && p in nodes && !p.Leaf? && i < 512 && Child(p, i) !in nodes
    requires f < |mem| <= PPN_LIMIT && f !in nodes.Values
    ensures var mem' := PutEntry(mem[f := ZeroFrame()], nodes[p], i, MakePte(f, 1));
            Tree(mem', root, nodes[Child(p, i) := f]) && TableMap(mem', nodes[Child(p, i) := f]) == TableMap(mem, nodes)
  {
    assert TreeOpened(0);
    var mem1 := mem[f := ZeroFrame()];
    var mem' := PutEntry(mem1, nodes[p], i, MakePte(f, 1));
    var nodes' := nodes[Child(p, i) := f];
    assert nodes[p] in nodes.Values;
    forall q, j | q in nodes' && !q.Leaf? && 0 <= j < 512 ensures EdgeOk(mem', nodes', q, j) {
      AddNodeEdge(mem, root, nodes, p, i, f, q, j);
    }
    forall v | 0 <= v < VPN_LIMIT ensures Lookup(mem', nodes', v) == Lookup(mem, nodes, v) {
      AddNodeLookup(mem, root, nodes, p, i, f, v);
    }
  }

  lemma AddNodeEdge(mem: Mem, root: nat, nodes: map<Path, nat>, p: Path, i: nat, f: nat, q: Path, j: nat)
    requires Tree(mem, root, nodes) && p in nodes && !p.Leaf? && i < 512 && Child(p, i) !in nodes
    requires f < |mem| <= PPN_LIMIT && f !in nodes.Values
    requires q in nodes[Child(p, i) := f] && !q.Leaf? && j < 512
    ensures EdgeOk(PutEntry(mem[f := ZeroFrame()], nodes[p], i, MakePte(f, 1)), nodes[Child(p, i) := f], q, j)
  {
    AddNodeEntry(mem, root, nodes, p, i, f, q, j);
    if q == p && i == j {
      PteRoundTrip(f, 1);
    } else if q == Child(p, i) {
      NothingBelow(mem, root, nodes, q, j);
    } else {
      TreeEdge(mem, root, nodes, q, j);
      assert Child(q, j) != Child(p, i);
    }
  }

  /** A node that is missing has no children. */
  lemma NothingBelow(mem: Mem, root: nat, nodes: map<Path, nat>, q: Path, j: nat)
    requires Tree(mem, root, nodes) && q.Mid? && q !in nodes && j < 512
    ensures Child(q, j) !in nodes
  {
    if Child(q, j) in nodes {
      TreeParent(mem, root, nodes, Child(q, j));
    }
  }

  lemma AddNodeEntry(mem: Mem, root: nat, nodes: map<Path, nat>, p: Path, i: nat, f: nat, q: Path, j: nat)
    requires Tree(mem, root, nodes) && p in nodes && !p.Leaf? && i < 512 && Child(p, i) !in nodes
    requires f < |mem| <= PPN_LIMIT && f !in nodes.Values
    requires q in nodes[Child(p, i) := f] && j < 512
    ensures Entry(PutEntry(mem[f := ZeroFrame()], nodes[p], i, MakePte(f, 1)), nodes[Child(p, i) := f][q], j)
            == if q == p && i == j then MakePte(f, 1) else if q == Child(p, i) then 0 else Entry(mem, nodes[q], j)
  {
    var mem1 := mem[f := ZeroFrame()];
    TreeNode(mem, root, nodes, p);
    EntryOfPut(mem1, nodes[p], i, MakePte(f, 1), nodes[Child(p, i) := f][q], j);
    assert nodes[p] in nodes.Values;
    if q == Child(p, i) {
      Entry64OfZero(j);
    } else {
      assert nodes[q] in nodes.Values;
      if q != p {
        TreeDiffer(mem, root, nodes, p, q);
      }
    }
  }

  lemma AddNodeLookup(mem: Mem, root: nat, nodes: map<Path, nat>, p: Path, i: nat, f: nat, v: nat)
    requires Tree(mem, root, nodes) && p in nodes && !p.Leaf? && i < 512 && Child(p, i) !in nodes
    requires f < |mem| <= PPN_LIMIT && f !in nodes.Values && v < VPN_LIMIT
    ensures Lookup(PutEntry(mem[f := ZeroFrame()], nodes[p], i, MakePte(f, 1)), nodes[Child(p, i) := f], v) == Lookup(mem, nodes, v)
  {
    var leaf := PathAt(v, 2);
    if leaf == Child(p, i) || leaf in nodes {
      AddNodeEntry(mem, root, nodes, p, i, f, leaf, Index(v, 2));
    }
  }

  /** The trackers a table holds are those of its nodes, one each. */
  ghost predicate Tracks(frames: seq<nat>, nodes: map<Path, nat>) {
    Distinct(frames) && forall f :: f in frames <==> f in nodes.Values
  }

  ghost predicate GrewOpened(k: int) { true }

  /**
   A table has gained the nodes `nodes` lacked in `nodes0`: on frames that were free, and
   nothing but its own frames has been written.
   */
  ghost predicate Grew(mem0: Mem, mem: Mem, owned0: set<nat>, owned: set<nat>, nodes0: map<Path, nat>, nodes: map<Path, nat>) {
    && |mem| == |mem0| && owned == owned0 + nodes.Values
    && forall k :: GrewOpened(k) ==>
         && (forall p :: p in nodes0 ==> p in nodes && nodes[p] == nodes0[p])
         && (forall p :: p in nodes && p !in nodes0 ==> nodes[p] !in owned0)
         && (forall q :: 0 <= q < |mem| && q !in nodes.Values ==> mem[q] == mem0[q])
  }

  lemma GrewTrans(mem0: Mem, mem1: Mem, mem2: Mem, owned0: set<nat>, owned1: set<nat>, owned2: set<nat>,
                  nodes0: map<Path, nat>, nodes1: map<Path, nat>, nodes2: map<Path, nat>)
    requires Grew(mem0, mem1, owned0, owned1, nodes0, nodes1) && Grew(mem1, mem2, owned1, owned2, nodes1, nodes2)
    ensures Grew(mem0, mem2, owned0, owned2, nodes0, nodes2)
  {
    assert GrewOpened(0);
    assert nodes1.Values <= nodes2.Values by {
      forall f | f in nodes1.Values ensures f in nodes2.Values {
        var p :| p in nodes1 && nodes1[p] == f;
        assert nodes2[p] == f;
      }
    }
  }

  /** What a frame outside a table holds survives the growth of the table. */
  lemma GrewOutside(mem0: Mem, mem: Mem, owned0: set<nat>, owned: set<nat>, nodes0: map<Path, nat>, nodes: map<Path, nat>, q: nat)
    requires Grew(mem0, mem, owned0, owned, nodes0, nodes) && q < |mem| && q in owned0 && q !in nodes0.Values
    ensures mem[q] == mem0[q] && q !in nodes.Values
  {
    assert GrewOpened(0);
    forall p | p in nodes ensures nodes[p] != q {
      if p in nodes0 {
        assert nodes0[p] in nodes0.Values;
      }
    }
  }

  lemma GrewNone(mem: Mem, owned: set<nat>, nodes: map<Path, nat>)
    requires nodes.Values <= owned
    ensures Grew(mem, mem, owned, owned, nodes, nodes)
  {
    assert owned == owned + nodes.Values;
  }

  /** Writing a frame of the table counts as growth by nothing. */
  lemma GrewWrite(mem: Mem, owned: set<nat>, nodes: map<Path, nat>, p: Path, f: Frame)
    requires p in nodes && nodes[p] < |mem| && nodes.Values <= owned
    ensures Grew(mem, mem[nodes[p] := f], owned, owned, nodes, nodes)
  {
    assert nodes[p] in nodes.Values;
    assert owned == owned + nodes.Values;
  }

  lemma GrewNode(mem: Mem, mem': Mem, owned: set<nat>, nodes: map<Path, nat>, p: Path, i: nat, f: nat)
    requires p in nodes && !p.Leaf? && i < 512 && Child(p, i) !in nodes && nodes[p] < |mem| && f < |mem|
    requires nodes.Values <= owned && f !in owned && |mem| <= PPN_LIMIT
    requires mem' == PutEntry(mem[f := ZeroFrame()], nodes[p], i, MakePte(f, 1))
    ensures Grew(mem, mem', owned, owned + {f}, nodes, nodes[Child(p, i) := f])
    ensures nodes[Child(p, i) := f].Values == nodes.Values + {f}
  {
    var nodes' := nodes[Child(p, i) := f];
    assert nodes[p] in nodes.Values;
    assert nodes'.Values == nodes.Values + {f} by {
      assert nodes'[Child(p, i)] == f;
      forall g | g in nodes.Values ensures g in nodes'.Values {
        var q :| q in nodes && nodes[q] == g;
        assert nodes'[q] == g;
      }
    }
    assert owned + {f} == owned + nodes'.Values;
  }

  lemma NodeAdded(mem: Mem, mem': Mem, owned: set<nat>, root: nat, frames: seq<nat>, nodes: map<Path, nat>, p: Path, i: nat, f: nat)
    requires Tree(mem, root, nodes) && Tracks(frames, nodes) && nodes.Values <= owned
    requires p in nodes && !p.Leaf? && i < 512 && Child(p, i) !in nodes
    requires f < |mem| <= PPN_LIMIT && f !in owned
    requires mem' == PutEntry(mem[f := ZeroFrame()], nodes[p], i, MakePte(f, 1))
    ensures var nodes' := nodes[Child(p, i) := f];
            && Tree(mem', root, nodes') && TableMap(mem', nodes') == TableMap(mem, nodes)
            && Tracks(frames + [f], nodes') && nodes'.Values <= owned + {f}
            && Grew(mem, mem', owned, owned + {f}, nodes, nodes')
  {
    TreeNode(mem, root, nodes, p);
    AddNode(mem, root, nodes, p, i, f);
    GrewNode(mem, mem', owned, nodes, p, i, f);
  }

  lemma EmptyTable(mem: Mem, f: nat)
    requires f < |mem| && mem[f] == ZeroFrame()
    ensures Tree(mem, f, map[Root := f]) && TableMap(mem, map[Root := f]) == map[]
  {
    var nodes := map[Root := f];
    forall p, i | p in nodes && !p.Leaf? && 0 <= i < 512 ensures EdgeOk(mem, nodes, p, i) {
      Entry64OfZero(i);
    }
  }

  class Table {
    const root: nat
    var frames: seq<nat>
    /** The frames of the table by their place in the tree. */
    ghost var nodes: map<Path, nat>

    ghost predicate Valid(pm: PhysMem)
      reads this, pm
    {
      pm.Valid() && Tree(pm.mem, root, nodes) && Tracks(frames, nodes) && nodes.Values <= pm.owned
    }

    /** The map the table stands for. */
    ghost function Bindings(pm: PhysMem): map<nat, u64>
      reads this, pm
    {
      TableMap(pm.mem, nodes)
    }

    /** A table that is one cleared frame. */
    constructor (pm: PhysMem, f: nat)
      requires pm.Valid() && f in pm.owned && f < |pm.mem| && pm.mem[f] == ZeroFrame()
      ensures Valid(pm) && root == f && frames == [f] && nodes == map[Root := f] && Bindings(pm) == map[]
    {
      root, frames, nodes := f, [f], map[Root := f];
      new;
      EmptyTable(pm.mem, f);
    }

    /**
     `find_pte_create`: the place of the entry of `vpn`, with the tables on the way to it made
     when they are missing. The map of the table stays the same. Fails only when frames run out.
     */
    method FindPteCreate(pm: PhysMem, vpn: nat) returns (r: Option<(nat, nat)>)
      requires Valid(pm)
      modifies this, pm
      ensures r.None? ==> pm.Available() == 0
      ensures r.Some? ==>
                && Valid(pm) && Bindings(pm) == old(Bindings(pm))
                && Grew(old(pm.mem), pm.mem, old(pm.owned), pm.owned, old(nodes), nodes)
                && PathAt(vpn, 2) in nodes && r.value == (nodes[PathAt(vpn, 2)], Index(vpn, 2))
    {
      var idx := Indexes(vpn);
      var ppn := root;
      var i := 0;
      GrewNone(pm.mem, pm.owned, nodes);
      while i < 2
        invariant 0 <= i <= 2 && Valid(pm) && Bindings(pm) == old(Bindings(pm))
        invariant Grew(old(pm.mem), pm.mem, old(pm.owned), pm.owned, old(nodes), nodes)
        invariant PathAt(vpn, i) in nodes && ppn == nodes[PathAt(vpn, i)]
      {
        var ok;
        ok, ppn := Descend(pm, PathAt(vpn, i), ppn, idx[i], old(pm.mem), old(pm.owned), old(nodes));
        if !ok {
          return None;
        }
        i := i + 1;
      }
      return Some((ppn, idx[2]));
    }

    /** One level down, making the table there when its entry is not valid. */
    method Descend(pm: PhysMem, ghost p: Path, ppn: nat, i: nat, ghost mem0: Mem, ghost owned0: set<nat>, ghost nodes0: map<Path, nat>)
      returns (ok: bool, below: nat)
      requires Valid(pm) && p in nodes && !p.Leaf? && ppn == nodes[p] && i < 512
      requires Grew(mem0, pm.mem, owned0, pm.owned, nodes0, nodes)
      modifies this, pm
      ensures !ok ==> pm.Available() == 0
      ensures ok ==>
                && Valid(pm) && Bindings(pm) == old(Bindings(pm))
                && Grew(mem0, pm.mem, owned0, pm.owned, nodes0, nodes)
                && Child(p, i) in nodes && below == nodes[Child(p, i)]
    {
      TreeEdge(pm.mem, root, nodes, p, i);
      var pte := Entry64(pm.mem[ppn], i);
      if PteValid(pte) {
        return true, PtePpn(pte);
      }
      ghost var mem1, owned1, nodes1 := pm.mem, pm.owned, nodes;
      ok, below := MakeTable(pm, p, ppn, i);
      if ok {
        GrewTrans(mem0, mem1, pm.mem, owned0, owned1, pm.owned, nodes0, nodes1, nodes);
      }
    }

    /** Hang a new table below an entry that is not valid. */
    method MakeTable(pm: PhysMem, ghost p: Path, ppn: nat, i: nat) returns (ok: bool, f: nat)
      requires Valid(pm) && p in nodes && !p.Leaf? && ppn == nodes[p] && i < 512 && Child(p, i) !in nodes
      modifies this, pm
      ensures !ok ==> pm.Available() == 0
      ensures ok ==>
                && Valid(pm) && Bindings(pm) == old(Bindings(pm))
                && Grew(old(pm.mem), pm.mem, old(pm.owned), pm.owned, old(nodes), nodes)
                && Child(p, i) in nodes && f == nodes[Child(p, i)]
    {
      TreeNode(pm.mem, root, nodes, p);
      var r := pm.FrameAlloc();
      if r.None? {
        return false, 0;
      }
      f := r.value;
      pm.SetEntry(ppn, i, MakePte(f, 1));
      NodeAdded(old(pm.mem), pm.mem, old(pm.owned), root, frames, nodes, p, i, f);
      frames := frames + [f];
      nodes := nodes[Child(p, i) := f];
      return true, f;
    }

    /** `map`: adds one binding. The source asserts that there was none, and `None` frames left is its only other panic. */
    method Map(pm: PhysMem, vpn: nat, ppn: nat, flags: nat) returns (ok: bool)
      requires Valid(pm) && vpn < VPN_LIMIT && ppn < PPN_LIMIT && flags < 256 && vpn !in Bindings(pm)
      modifies this, pm
      ensures !ok ==> pm.Available() == 0
      ensures ok ==>
                && Valid(pm) && Bindings(pm) == old(Bindings(pm))[vpn := MakePte(ppn, WithV(flags))]
                && var e := Bindings(pm)[vpn];
                && PtePpn(e) == ppn && PteValid(e) && PteFlags(e) / 2 == flags / 2
                && Grew(old(pm.mem), pm.mem, old(pm.owned), pm.owned, old(nodes), nodes)
    {
      var r := FindPteCreate(pm, vpn);
      if r.None? {
        return false;
      }
      ghost var mem1, owned1 := pm.mem, pm.owned;
      Store(pm, vpn, r.value.0, r.value.1, MakePte(ppn, WithV(flags)));
      PteRoundTrip(ppn, WithV(flags));
      GrewTrans(old(pm.mem), mem1, pm.mem, old(pm.owned), owned1, pm.owned, old(nodes), nodes, nodes);
      return true;
    }

    /** Overwrite the entry of `vpn`. */
    method Store(pm: PhysMem, ghost vpn: nat, t: nat, i: nat, e: u64)
      requires Valid(pm) && vpn < VPN_LIMIT && PathAt(vpn, 2) in nodes && t == nodes[PathAt(vpn, 2)] && i == Index(vpn, 2)
      modifies pm`mem
      ensures Valid(pm) && Grew(old(pm.mem), pm.mem, pm.owned, pm.owned, nodes, nodes)
      ensures Bindings(pm) == if PteValid(e) then old(Bindings(pm))[vpn := e] else old(Bindings(pm)) - {vpn}
    {
      TreeNode(pm.mem, root, nodes, PathAt(vpn, 2));
      SetLeaf(pm.mem, root, nodes, vpn, e);
      GrewWrite(pm.mem, pm.owned, nodes, PathAt(vpn, 2), PutEntry64(pm.mem[t], i, e));
      pm.SetEntry(t, i, e);
    }

    /** `find_pte`: the place of the entry of `vpn`, when the tables on the way to it exist. */
    method FindPte(pm: PhysMem, vpn: nat) returns (r: Option<(nat, nat)>)
      requires Valid(pm)
      ensures r.Some? <==> PathAt(vpn, 2) in nodes
      ensures r.Some? ==> r.value == (nodes[PathAt(vpn, 2)], Index(vpn, 2))
    {
      var idx := Indexes(vpn);
      var ppn := root;
      var i := 0;
      while i < 2
        invariant 0 <= i <= 2 && PathAt(vpn, i) in nodes && ppn == nodes[PathAt(vpn, i)]
      {
        TreeEdge(pm.mem, root, nodes, PathAt(vpn, i), idx[i]);
        var pte := Entry64(pm.mem[ppn], idx[i]);
        if !PteValid(pte) {
          if PathAt(vpn, 2) in nodes {
            TreeParent(pm.mem, root, nodes, PathAt(vpn, 2));
          }
          return None;
        }
        ppn := PtePpn(pte);
        i := i + 1;
      }
      return Some((ppn, idx[2]));
    }

    /** `unmap`: removes one binding, which the source asserts to be there. */
    method Unmap(pm: PhysMem, vpn: nat)
      requires Valid(pm) && vpn in Bindings(pm)
      modifies pm`mem
      ensures Valid(pm) && Bindings(pm) == old(Bindings(pm)) - {vpn}
      ensures Grew(old(pm.mem), pm.mem, pm.owned, pm.owned, nodes, nodes)
    {
      var r := FindPte(pm, vpn);
      Store(pm, vpn, r.value.0, r.value.1, 0);
    }

    /** `translate`: the entry of a mapped page; for other pages an entry that is not valid, or none. */
    method Translate(pm: PhysMem, vpn: nat) returns (r: Option<u64>)
      requires Valid(pm) && vpn < VPN_LIMIT
      ensures vpn in Bindings(pm) ==> r == Some(Bindings(pm)[vpn])
      ensures vpn !in Bindings(pm) ==> r.None? || !PteValid(r.value)
    {
      var w := FindPte(pm, vpn);
      if w.None? {
        return None;
      }
      TreeNode(pm.mem, root, nodes, PathAt(vpn, 2));
      return Some(Entry64(pm.mem[w.value.0], w.value.1));
    }
  }
}
