/**
 The operations of `DiskInode` (easy-fs/src/layout.rs) over the block cache.

 An operation runs while the block holding the inode is locked, takes the inode by value and
 returns the updated one. Its lock requests are safe because the blocks it owns are `Private`:
 distinct blocks of the device whose locks nobody holds.
 */
module DiskInodeOps {
  import opened Basics
  import opened Bytes
  import opened BlockCache
  import opened InodeIndex
  import opened SpareSlots

  method ReadWord(c: BlockCacheManager, b: nat, i: nat) returns (w: u32)
    requires c.Ready() && b < |c.view| && b !in c.pinned && |c.pinned| <= 2 && i < 128
    modifies c
    ensures c.Ready() && c.view == old(c.view) && c.pinned == old(c.pinned) && (old(c.Synced()) ==> c.Synced())
    ensures w == WordAt(c.view, b, i)
  {
    c.Lock(b);
    var block := c.Read(b);
    w := Word(block, i);
    c.Unlock(b);
  }

  /**
   The block holding data block `i` of the file that owns the blocks `o`; for a block past the end,
   which the caller may ask for as far as the index reaches, whatever the slot holds.
   */
  method GetBlockId(c: BlockCacheManager, d: DiskInode, i: nat, ghost o: seq<nat>) returns (id: u32)
    requires c.Ready() && |c.pinned| <= 2
    requires Indexes(c.view, d, o) && Private(o, |c.view|, c.pinned) && i < MAX_BLOCKS && Anchor(DataSlot(i)) <= |o|
    modifies c
    ensures c.Ready() && c.view == old(c.view) && c.pinned == old(c.pinned) && (old(c.Synced()) ==> c.Synced())
    ensures id == BlockId(c.view, d, i) && (DataSlot(i) < |o| ==> id == o[DataSlot(i)])
  {
    DataSlotLocation(i);
    if DataSlot(i) < |o| {
      IndexesAt(c.view, d, o, DataSlot(i));
    }
    if i < 28 {
      id := d.direct[i];
    } else if i < 156 {
      IndexReady(c, d, o, 28);
      id := ReadWord(c, d.indirect1, i - 28);
    } else {
      var last := i - 156;
      IndexReady(c, d, o, 157);
      SecondSlotNumber(last / 128);
      var indirect1 := ReadWord(c, d.indirect2, last / 128);
      IndexReady(c, d, o, 158 + 129 * (last / 128));
      id := ReadWord(c, indirect1, last % 128);
    }
  }

  lemma IndexReady(c: BlockCacheManager, d: DiskInode, o: seq<nat>, k: nat)
    requires Indexes(c.view, d, o) && Private(o, |c.view|, c.pinned) && k < |o|
    ensures SlotBlock(c.view, d, k) == o[k] < |c.view| && o[k] !in c.pinned
  {
    IndexesAt(c.view, d, o, k);
    PrivateAt(o, |c.view|, c.pinned, k);
  }

  ghost predicate GrownOpened(k: int) { true }

  /** `img` and `d` are what recording the first `j` of the blocks `vs` makes of `s0`. */
  ghost predicate Grown(s0: (Image, DiskInode), k0: nat, vs: seq<u32>, j: nat, img: Image, d: DiskInode) {
    && s0.1.Ok() && d.Ok() && j <= |vs| && k0 + |vs| <= MAX_SLOTS
    && forall k :: GrownOpened(k) ==> Grow(s0.0, s0.1, k0, vs[..j]) == (img, d)
  }

  /** The blocks owned so far and the ones to be added are distinct blocks of the image, none of them locked. */
  ghost predicate Growable(s0: (Image, DiskInode), o: seq<nat>, vs: seq<u32>, locked: set<nat>) {
    Indexes(s0.0, s0.1, o) && |o| + |vs| <= MAX_SLOTS && Private(o + vs, |s0.0|, locked)
  }

  lemma GrownStep(s0: (Image, DiskInode), k0: nat, vs: seq<u32>, j: nat, img: Image, d: DiskInode)
    requires Grown(s0, k0, vs, j, img, d) && j < |vs|
    ensures var (img', d') := PutSlot(img, d, k0 + j, vs[j]); Grown(s0, k0, vs, j + 1, img', d')
  {
    assert GrownOpened(0);
    GrowStep(s0.0, s0.1, k0, vs, j);
  }

  lemma GrownOwned(s0: (Image, DiskInode), o: seq<nat>, vs: seq<u32>, j: nat, img: Image, d: DiskInode, locked: set<nat>)
    requires Growable(s0, o, vs, locked) && Grown(s0, |o|, vs, j, img, d)
    ensures Indexes(img, d, (o + vs)[..|o| + j]) && |img| == |s0.0|
    ensures OnlyIndexChanged(s0.0, img, (o + vs)[..|o| + j])
  {
    assert GrownOpened(0) && PrivateOpened(0) && IndexesOpened(0);
    var all := o + vs;
    assert o + vs[..j] == all[..|o| + j];
    GrowOwned(s0.0, s0.1, |o|, vs[..j]);
  }

  /** A slot filled so far holds a block of the image that is not locked. */
  lemma GrownSlot(s0: (Image, DiskInode), o: seq<nat>, vs: seq<u32>, j: nat, img: Image, d: DiskInode, locked: set<nat>, m: nat)
    requires Growable(s0, o, vs, locked) && Grown(s0, |o|, vs, j, img, d) && m < |o| + j
    ensures SlotBlock(img, d, m) == (o + vs)[m] < |img| == |s0.0| && SlotBlock(img, d, m) !in locked
  {
    GrownOwned(s0, o, vs, j, img, d, locked);
    IndexesAt(img, d, (o + vs)[..|o| + j], m);
    PrivateAt(o + vs, |img|, locked, m);
  }

  method WriteWord(c: BlockCacheManager, b: nat, i: nat, w: u32)
    requires c.Ready() && b in c.pinned && b < |c.view| && i < 128
    modifies c
    ensures c.Ready() && c.pinned == old(c.pinned) && |c.view| == old(|c.view|)
    ensures c.view == PutWordAt(old(c.view), b, i, w)
  {
    var block := c.Read(b);
    c.Write(b, PutWord(block, i, w));
  }

  /** Fill the direct slots; `cur` counts the data blocks in place. */
  method FillDirect(d0: DiskInode, n0: nat, total: nat, vs: seq<u32>, ghost s0: (Image, DiskInode))
    returns (d: DiskInode, cur: nat, j: nat)
    requires n0 <= total <= MAX_BLOCKS && |vs| >= SlotsFor(total) - SlotsFor(n0) && SlotsFor(n0) + |vs| <= MAX_SLOTS
    requires s0.1 == d0 && d0.Ok()
    ensures Grown(s0, SlotsFor(n0), vs, j, s0.0, d)
    ensures n0 >= 28 ==> cur == n0 && j == 0
    ensures n0 < 28 ==> cur == Min(total, 28) && j == cur - n0
  {
    d, cur, j := d0, n0, 0;
    assert vs[..0] == [];
    while cur < Min(total, 28)
      invariant n0 <= cur <= total && j == cur - n0
      invariant n0 >= 28 ==> cur == n0
      invariant n0 < 28 ==> cur <= Min(total, 28)
      invariant Grown(s0, SlotsFor(n0), vs, j, s0.0, d)
    {
      SlotsForMonotone(cur, total);
      GrownStep(s0, SlotsFor(n0), vs, j, s0.0, d);
      d := d.(direct := d.direct[cur := vs[j]]);
      j := j + 1;
      cur := cur + 1;
    }
  }

  /** Record the next block in entry `i` of the indirect1 block, which is locked. */
  method PutListed1(c: BlockCacheManager, d: DiskInode, i: nat, vs: seq<u32>, j: nat,
                    ghost s0: (Image, DiskInode), ghost o: seq<nat>)
    requires c.Ready() && d.indirect1 in c.pinned && d.indirect1 < |c.view|
    requires Grown(s0, |o|, vs, j, c.view, d)
    requires i < 128 && j < |vs| && |o| + j == 29 + i
    modifies c
    ensures c.Ready() && c.pinned == old(c.pinned) && |c.view| == old(|c.view|)
    ensures Grown(s0, |o|, vs, j + 1, c.view, d)
  {
    GrownStep(s0, |o|, vs, j, c.view, d);
    WriteWord(c, d.indirect1, i, vs[j]);
  }

  /** Fill the indirect1 block, from its entry `from` on. */
  method FillIndirect1(c: BlockCacheManager, d: DiskInode, from: nat, to: nat, vs: seq<u32>, j0: nat,
                       ghost s0: (Image, DiskInode), ghost o: seq<nat>)
    returns (j: nat)
    requires c.Ready() && |c.pinned| <= 1
    requires Growable(s0, o, vs, c.pinned) && Grown(s0, |o|, vs, j0, c.view, d)
    requires |o| + j0 > 28 && to <= 128
    requires from <= to ==> |o| + j0 == 29 + from && j0 + (to - from) <= |vs|
    modifies c
    ensures c.Ready() && c.pinned == old(c.pinned) && |c.view| == old(|c.view|)
    ensures Grown(s0, |o|, vs, j, c.view, d)
    ensures j == if from <= to then j0 + (to - from) else j0
  {
    ghost var locked := c.pinned;
    GrownSlot(s0, o, vs, j0, c.view, d, locked, 28);
    var b := d.indirect1;
    c.Lock(b);
    var i := from;
    j := j0;
    while i < to
      invariant from <= to ==> from <= i <= to && j == j0 + (i - from)
      invariant from > to ==> i == from && j == j0
      invariant c.Ready() && c.pinned == locked + {b} && |c.view| == old(|c.view|)
      invariant Grown(s0, |o|, vs, j, c.view, d)
    {
      PutListed1(c, d, i, vs, j, s0, o);
      j := j + 1;
      i := i + 1;
    }
    c.Unlock(b);
  }

  /** The slot number reached when entry `b` of second-level block `a` comes next. */
  function Reached(a: nat, b: nat): nat {
    158 + 129 * a + (if b == 0 then 0 else 1 + b)
  }

  /** The block entry `(a, b)` goes to can be locked beside the indirect2 block. */
  lemma Listed2Lockable(s0: (Image, DiskInode), o: seq<nat>, vs: seq<u32>, j: nat, img: Image, d: DiskInode, locked: set<nat>, a: nat)
    requires Growable(s0, o, vs, locked) && Grown(s0, |o|, vs, j, img, d)
    requires a < 128 && 158 + 129 * a < |o| + j
    ensures d.indirect2 < |img|
    ensures var sub := WordAt(img, d.indirect2, a); sub < |img| && sub !in locked && sub != d.indirect2
  {
    var m := 158 + 129 * a;
    SecondSlotNumber(a);
    GrownSlot(s0, o, vs, j, img, d, locked, 157);
    GrownSlot(s0, o, vs, j, img, d, locked, m);
    PrivateDiffer(o + vs, |s0.0|, locked, 157, m);
  }

  /** Writing entry `(a, b)` is the next step of the growth. */
  lemma Listed2Step(s0: (Image, DiskInode), k0: nat, vs: seq<u32>, j: nat, img: Image, d: DiskInode, a: nat, b: nat)
    requires Grown(s0, k0, vs, j, img, d)
    requires a < 128 && b < 128 && j < |vs| && k0 + j == 159 + 129 * a + b
    ensures Grown(s0, k0, vs, j + 1, PutWordAt(img, WordAt(img, d.indirect2, a), b, vs[j]), d)
  {
    Listed2SlotNumber(a, b);
    GrownStep(s0, k0, vs, j, img, d);
    assert PutSlot(img, d, k0 + j, vs[j]) == (PutWordAt(img, WordAt(img, d.indirect2, a), b, vs[j]), d);
  }

  /** Record the next block in entry `(a, b)` of the second-level index, whose root block is locked. */
  method PutListed2(c: BlockCacheManager, d: DiskInode, a: nat, b: nat, vs: seq<u32>, j: nat,
                    ghost s0: (Image, DiskInode), ghost o: seq<nat>, ghost locked: set<nat>)
    requires c.Ready() && |locked| <= 1 && c.pinned == locked + {d.indirect2}
    requires Growable(s0, o, vs, locked) && Grown(s0, |o|, vs, j, c.view, d)
    requires a < 128 && b < 128 && j < |vs| && |o| + j == 159 + 129 * a + b
    modifies c
    ensures c.Ready() && c.pinned == old(c.pinned) && |c.view| == old(|c.view|)
    ensures Grown(s0, |o|, vs, j + 1, c.view, d)
  {
    Listed2Lockable(s0, o, vs, j, c.view, d, locked, a);
    Listed2Step(s0, |o|, vs, j, c.view, d, a, b);
    var block := c.Read(d.indirect2);
    var sub := Word(block, a);
    c.Lock(sub);
    WriteWord(c, sub, b, vs[j]);
    c.Unlock(sub);
  }

  /** Record the second-level block for entries `(a, 0)..(a, 127)`. */
  method PutSecond(c: BlockCacheManager, d: DiskInode, a: nat, vs: seq<u32>, j: nat,
                   ghost s0: (Image, DiskInode), ghost o: seq<nat>, ghost locked: set<nat>)
    requires c.Ready() && c.pinned == locked + {d.indirect2}
    requires Growable(s0, o, vs, locked) && Grown(s0, |o|, vs, j, c.view, d)
    requires a < 128 && j < |vs| && |o| + j == 158 + 129 * a
    modifies c
    ensures c.Ready() && c.pinned == old(c.pinned) && |c.view| == old(|c.view|)
    ensures Grown(s0, |o|, vs, j + 1, c.view, d)
  {
    GrownSlot(s0, o, vs, j, c.view, d, locked, 157);
    SecondSlotNumber(a);
    ghost var next := PutSlot(c.view, d, |o| + j, vs[j]);
    GrownStep(s0, |o|, vs, j, c.view, d);
    assert next == (PutWordAt(c.view, d.indirect2, a, vs[j]), d);
    WriteWord(c, d.indirect2, a, vs[j]);
  }

  /** Record the blocks entry `(a, b)` needs: the first entry of a second-level block needs that block too. */
  method PutEntry(c: BlockCacheManager, d: DiskInode, a: nat, b: nat, vs: seq<u32>, j0: nat,
                  ghost s0: (Image, DiskInode), ghost o: seq<nat>, ghost locked: set<nat>)
    returns (j: nat)
    requires c.Ready() && |locked| <= 1 && c.pinned == locked + {d.indirect2}
    requires Growable(s0, o, vs, locked) && Grown(s0, |o|, vs, j0, c.view, d)
    requires a < 128 && b < 128 && |o| + j0 == Reached(a, b) && 159 + 129 * a + b < |o| + |vs|
    modifies c
    ensures c.Ready() && c.pinned == old(c.pinned) && |c.view| == old(|c.view|)
    ensures Grown(s0, |o|, vs, j, c.view, d) && |o| + j == 160 + 129 * a + b
  {
    j := j0;
    if b == 0 {
      PutSecond(c, d, a, vs, j, s0, o, locked);
      j := j + 1;
    }
    PutListed2(c, d, a, b, vs, j, s0, o, locked);
    j := j + 1;
  }

  /** Fill the second level from entry `(a0, b0)` up to, not including, `(a1, b1)`. */
  method FillIndirect2(c: BlockCacheManager, d: DiskInode, a0: nat, b0: nat, a1: nat, b1: nat, vs: seq<u32>, j0: nat,
                       ghost s0: (Image, DiskInode), ghost o: seq<nat>)
    returns (j: nat)
    requires c.Ready() && |c.pinned| <= 1
    requires Growable(s0, o, vs, c.pinned) && Grown(s0, |o|, vs, j0, c.view, d)
    requires b0 < 128 && b1 < 128 && 128 * a0 + b0 <= 128 * a1 + b1 <= 16384
    requires |o| + j0 == Reached(a0, b0) && Reached(a1, b1) <= |o| + |vs|
    modifies c
    ensures c.Ready() && c.pinned == old(c.pinned) && |c.view| == old(|c.view|)
    ensures Grown(s0, |o|, vs, j, c.view, d)
    ensures |o| + j == Reached(a1, b1)
  {
    ghost var locked := c.pinned;
    GrownSlot(s0, o, vs, j0, c.view, d, locked, 157);
    c.Lock(d.indirect2);
    var a, b := a0, b0;
    j := j0;
    while a < a1 || (a == a1 && b < b1)
      invariant 0 <= a && 0 <= b < 128 && 128 * a + b <= 128 * a1 + b1
      invariant |o| + j == Reached(a, b)
      invariant c.Ready() && c.pinned == locked + {d.indirect2} && |c.view| == old(|c.view|)
      invariant Grown(s0, |o|, vs, j, c.view, d)
      decreases 128 * (a1 - a) + b1 - b
    {
      j := PutEntry(c, d, a, b, vs, j, s0, o, locked);
      b := b + 1;
      if b == 128 {
        b := 0;
        a := a + 1;
      }
    }
    c.Unlock(d.indirect2);
  }

  /**
   Growth to `newSize`: records the `TotalBlocks(newSize) - TotalBlocks(d0.size)` supplied blocks in
   the next slots. The file then owns its old blocks followed by the new ones, and nothing
   but index blocks of the file has been written.
   */
  method IncreaseSize(c: BlockCacheManager, d0: DiskInode, newSize: u32, vs: seq<u32>, ghost o: seq<nat>) returns (d: DiskInode)
    requires c.Ready() && |c.pinned| <= 1
    requires d0.size <= newSize <= MAX_SIZE
    requires |o| == TotalBlocks(d0.size) && |o + vs| == TotalBlocks(newSize)
    requires Indexes(c.view, d0, o) && Private(o + vs, |c.view|, c.pinned)
    modifies c
    ensures c.Ready() && c.pinned == old(c.pinned)
    ensures (c.view, d) == Grow(old(c.view), d0.(size := newSize), |o|, vs)
    ensures Indexes(c.view, d, o + vs) && OnlyIndexChanged(old(c.view), c.view, o + vs)
  {
    var n0, total := DataBlocks(d0.size), DataBlocks(newSize);
    ghost var s0 := (c.view, d0.(size := newSize));
    SlotsForCovers(total, 0);
    SizeIrrelevant(c.view, d0, newSize, o);
    var cur, j;
    d, cur, j := FillDirect(d0.(size := newSize), n0, total, vs, s0);
    if total > 28 {
      if cur == 28 {
        GrownStep(s0, |o|, vs, j, c.view, d);
        d := d.(indirect1 := vs[j]);
        j := j + 1;
      }
      d, j := FillLevels(c, d, n0, cur - 28, total - 28, vs, j, s0, o);
    }
    GrownAll(s0, o, vs, c.view, d, c.pinned);
  }

  lemma GrownAll(s0: (Image, DiskInode), o: seq<nat>, vs: seq<u32>, img: Image, d: DiskInode, locked: set<nat>)
    requires Growable(s0, o, vs, locked) && Grown(s0, |o|, vs, |vs|, img, d)
    ensures (img, d) == Grow(s0.0, s0.1, |o|, vs)
    ensures Indexes(img, d, o + vs) && OnlyIndexChanged(s0.0, img, o + vs)
  {
    assert vs[..|vs|] == vs && (o + vs)[..|o| + |vs|] == o + vs;
    GrownOwned(s0, o, vs, |vs|, img, d, locked);
    assert GrownOpened(0);
  }

  lemma SizeIrrelevant(img: Image, d: DiskInode, size: u32, o: seq<nat>)
    requires Indexes(img, d, o)
    ensures Indexes(img, d.(size := size), o)
  {
    assert IndexesOpened(0);
    assert forall k :: 0 <= k < |o| ==> SlotBlock(img, d.(size := size), k) == SlotBlock(img, d, k);
  }

  /** What follows the indirect1 block: `cur` of the `total` blocks past the direct ones are in place. */
  method FillLevels(c: BlockCacheManager, d0: DiskInode, n0: nat, cur: nat, total: nat, vs: seq<u32>, j0: nat,
                    ghost s0: (Image, DiskInode), ghost o: seq<nat>)
    returns (d: DiskInode, j: nat)
    requires c.Ready() && |c.pinned| <= 1
    requires 0 < total && n0 <= 28 + total <= MAX_BLOCKS && |o| == SlotsFor(n0) && |o| + |vs| == SlotsFor(28 + total)
    requires Growable(s0, o, vs, c.pinned) && Grown(s0, |o|, vs, j0, c.view, d0)
    requires if n0 <= 28 then cur == 0 && |o| + j0 == 29 else cur == n0 - 28 && j0 == 0
    modifies c
    ensures c.Ready() && c.pinned == old(c.pinned) && |c.view| == old(|c.view|)
    ensures j == |vs| && Grown(s0, |o|, vs, j, c.view, d)
  {
    var cur, total := cur, total;
    d := d0;
    j := FillIndirect1(c, d, cur, Min(total, 128), vs, j0, s0, o);
    if cur < Min(total, 128) {
      cur := Min(total, 128);
    }
    if total > 128 {
      if cur == 128 {
        GrownStep(s0, |o|, vs, j, c.view, d);
        d := d.(indirect2 := vs[j]);
        j := j + 1;
      }
      cur, total := cur - 128, total - 128;
      j := FillIndirect2(c, d, cur / 128, cur % 128, total / 128, total % 128, vs, j, s0, o);
    }
  }
}
