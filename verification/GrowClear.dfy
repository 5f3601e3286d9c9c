/**
 Growing a fresh inode in two steps and clearing it again (easy-fs/src/layout.rs): `clear_size`
 undoes `increase_size` and hands back every block it was given.
 */
module GrowClear {
  import opened Bytes
  import opened BlockCache
  import opened InodeIndex
  import opened SpareSlots
  import opened DiskInodeOps
  import opened DiskInodeData

  /** Slots that are not filled stay as they are. */
  lemma {:induction false} GrowLeavesRest(img: Image, d: DiskInode, k: nat, vs: seq<u32>)
    requires d.Ok() && k + |vs| <= MAX_SLOTS
    ensures var d' := Grow(img, d, k, vs).1;
            && d'.size == d.size && d'.isDir == d.isDir && d'.Ok()
            && (forall i :: k + |vs| <= i < 28 ==> d'.direct[i] == d.direct[i])
            && (k + |vs| <= 28 ==> d'.indirect1 == d.indirect1)
            && (k + |vs| <= 157 ==> d'.indirect2 == d.indirect2)
    decreases |vs|
  {
    if vs != [] {
      GrowLeavesRest(img, d, k, vs[..|vs| - 1]);
    }
  }

  /** What is left of a fresh inode after growth to `size` and clearing is the fresh inode. */
  lemma ClearedIsUnused(img: Image, d0: DiskInode, size: u32, vs: seq<u32>)
    requires Unused(d0) && size <= MAX_SIZE && |vs| == TotalBlocks(size) <= MAX_SLOTS
    ensures Cleared(Grow(img, d0.(size := size), 0, vs).1, DataBlocks(size)) == d0
  {
    GrowLeavesRest(img, d0.(size := size), 0, vs);
    var d := Cleared(Grow(img, d0.(size := size), 0, vs).1, DataBlocks(size));
    assert d.direct == d0.direct;
  }

  /** The recorded size has no part in growth. */
  lemma {:induction false} GrowAnySize(img: Image, d: DiskInode, size: u32, k: nat, vs: seq<u32>)
    requires d.Ok() && k + |vs| <= MAX_SLOTS
    ensures var (img', d') := Grow(img, d, k, vs); Grow(img, d.(size := size), k, vs) == (img', d'.(size := size))
    decreases |vs|
  {
    if vs != [] {
      GrowAnySize(img, d, size, k, vs[..|vs| - 1]);
    }
  }

  lemma IndexesNone(img: Image, d: DiskInode)
    requires d.Ok()
    ensures Indexes(img, d, [])
  {
  }

  /**
   Growing a fresh inode twice and clearing it returns all the blocks supplied, index blocks
   included, in the order they were supplied, and leaves the inode fresh.
   */
  method GrowTwiceThenClear(c: BlockCacheManager, d0: DiskInode, size1: u32, size2: u32, vs1: seq<u32>, vs2: seq<u32>)
    returns (d: DiskInode, v: seq<nat>)
    requires c.Ready() && |c.pinned| <= 1 && Unused(d0) && size1 <= size2 <= MAX_SIZE
    requires |vs1| == TotalBlocks(size1) && |vs1| + |vs2| == TotalBlocks(size2)
    requires Private(vs1, |c.view|, c.pinned) && Private(vs1 + vs2, |c.view|, c.pinned)
    modifies c
    ensures c.Ready() && c.pinned == old(c.pinned)
    ensures d == d0 && v == vs1 + vs2 && |v| == TotalBlocks(size2)
  {
    ghost var img := c.view;
    IndexesNone(img, d0);
    SlotsForCovers(DataBlocks(size2), 0);
    assert [] + vs1 == vs1;
    var d1 := IncreaseSize(c, d0, size1, vs1, []);
    ghost var img1 := c.view;
    var d2 := IncreaseSize(c, d1, size2, vs2, vs1);
    TwoGrowths(img, d0, 0, size1, size2, vs1, vs2);
    d, v := ClearSize(c, d2, vs1 + vs2);
    ClearedIsUnused(img, d0, size2, vs1 + vs2);
  }

  /** Growth to one size and then to another, from however many slots are filled, is growth to the second. */
  lemma TwoGrowths(img: Image, d0: DiskInode, k: nat, size1: u32, size2: u32, vs1: seq<u32>, vs2: seq<u32>)
    requires d0.Ok() && k + |vs1| + |vs2| <= MAX_SLOTS
    ensures var (img1, d1) := Grow(img, d0.(size := size1), k, vs1);
            Grow(img1, d1.(size := size2), k + |vs1|, vs2) == Grow(img, d0.(size := size2), k, vs1 + vs2)
  {
    GrowAnySize(img, d0, size1, k, vs1);
    GrowAnySize(img, d0, size2, k, vs1);
    GrowComposes(img, d0.(size := size2), k, vs1, vs2);
  }
}
