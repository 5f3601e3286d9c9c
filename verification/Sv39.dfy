/**
 Address translation as the hardware does it (section 4.4 of the RISC-V Privileged Architecture),
 on the bytes of physical memory. It shares no definition with the code that keeps the tables.
 */
module Sv39 {
  import opened Options
  import opened Bytes
  import opened PhysMemory
  import opened PageTable

  /** The little-endian number in the eight bytes from `p` on. */
  function Number64(f: Frame, p: nat): nat
    requires p + 8 <= 4096
  {
    f[p] as int + 0x100 * (f[p + 1] as int + 0x100 * (f[p + 2] as int + 0x100 * (f[p + 3] as int
      + 0x100 * (f[p + 4] as int + 0x100 * (f[p + 5] as int + 0x100 * (f[p + 6] as int + 0x100 * (f[p + 7] as int)))))))
  }

  /** Entry `i` of the table in frame `ppn`; nothing off the end of memory. */
  function TableEntry(mem: Mem, ppn: nat, i: nat): nat
    requires i < 512
  {
    if ppn < |mem| then Number64(mem[ppn], 8 * i) else 0
  }

  /** An entry that leads to a table: valid, and neither readable, writable nor executable. */
  predicate Pointer(e: nat) { e % 16 == 1 }

  /** The frame number in an entry, 44 bits from bit 10 on. */
  function FrameOf(e: nat): nat { e / 0x400 % 0x1000_0000_0000 }

  /** The way through three tables by the indexes `i2`, `i1` and `i0`. */
  function WalkBy(mem: Mem, root: nat, i2: nat, i1: nat, i0: nat): Option<nat>
    requires i2 < 0x200 && i1 < 0x200 && i0 < 0x200
  {
    var e2 := TableEntry(mem, root, i2);
    if !Pointer(e2) then None
    else
      var e1 := TableEntry(mem, FrameOf(e2), i1);
      if !Pointer(e1) then None
      else
        var e0 := TableEntry(mem, FrameOf(e1), i0);
        if e0 % 2 == 1 then Some(e0) else None
  }

  /** The entry that translates page `vpn`: each table is indexed by nine bits of the page number, the first by the highest. */
  function Walk(mem: Mem, root: nat, vpn: nat): Option<nat> {
    WalkBy(mem, root, vpn / 0x4_0000 % 0x200, vpn / 0x200 % 0x200, vpn % 0x200)
  }

  lemma EntryIsNumber(mem: Mem, ppn: nat, i: nat)
    requires i < 512
    ensures Entry(mem, ppn, i) == TableEntry(mem, ppn, i)
  {
  }

  lemma EdgeIsPointer(e: u64, nodes: map<Path, nat>, child: Path)
    requires EdgeIs(e, nodes, child)
    ensures Pointer(e) <==> child in nodes
    ensures child in nodes ==> FrameOf(e) == nodes[child]
  {
    if child in nodes {
      assert e % 256 == 1;
    }
  }

  lemma StepDown(mem: Mem, root: nat, nodes: map<Path, nat>, p: Path, i: nat)
    requires Tree(mem, root, nodes) && p in nodes && !p.Leaf? && i < 512
    ensures Pointer(TableEntry(mem, nodes[p], i)) <==> Child(p, i) in nodes
    ensures Child(p, i) in nodes ==> FrameOf(TableEntry(mem, nodes[p], i)) == nodes[Child(p, i)]
  {
    TreeEdge(mem, root, nodes, p, i);
    EntryIsNumber(mem, nodes[p], i);
    EdgeIsPointer(Entry(mem, nodes[p], i), nodes, Child(p, i));
  }

  lemma WalkFinds(mem: Mem, root: nat, nodes: map<Path, nat>, i2: nat, i1: nat, i0: nat)
    requires Tree(mem, root, nodes) && i2 < 512 && i1 < 512 && i0 < 512
    ensures WalkBy(mem, root, i2, i1, i0) ==
            if Leaf(i2, i1) in nodes && PteValid(Entry(mem, nodes[Leaf(i2, i1)], i0))
            then Some(Entry(mem, nodes[Leaf(i2, i1)], i0)) else None
  {
    StepDown(mem, root, nodes, Root, i2);
    if Mid(i2) in nodes {
      StepDown(mem, root, nodes, Mid(i2), i1);
      if Leaf(i2, i1) in nodes {
        EntryIsNumber(mem, nodes[Leaf(i2, i1)], i0);
      }
    } else if Leaf(i2, i1) in nodes {
      TreeParent(mem, root, nodes, Leaf(i2, i1));
    }
  }

  /** The hardware finds exactly the bindings of the map a table stands for. */
  lemma WalkFindsBindings(mem: Mem, root: nat, nodes: map<Path, nat>, vpn: nat)
    requires Tree(mem, root, nodes) && vpn < VPN_LIMIT
    ensures Walk(mem, root, vpn) == if vpn in TableMap(mem, nodes) then Some(TableMap(mem, nodes)[vpn]) else None
  {
    WalkFinds(mem, root, nodes, Index(vpn, 0), Index(vpn, 1), Index(vpn, 2));
  }
}
