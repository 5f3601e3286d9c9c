/**
 Allocation and release of data blocks (easy-fs/src/efs.rs) and the growth of a file that
 takes its blocks from the data bitmap (easy-fs/src/vfs.rs).
 */
module EfsAlloc {
  import opened Basics
  import opened Bytes
  import opened BlockCache
  import opened InodeIndex
  import opened SpareSlots
  import opened FileContent
  import opened DiskInodeOps
  import opened DiskInodeData
  import opened Bitmap
  import opened EfsLayout
  import opened EfsState

  /** Only blocks before the data bitmap are locked: an operation holds the block of its inode. */
  ghost predicate FrontLocked(c: BlockCacheManager, l: Layout)
    reads c
  {
    c.Ready() && |c.pinned| <= 1 && forall x :: x in c.pinned ==> x < l.DataBitmap()
  }

  ghost predicate DataMarks(img: Image, l: Layout, used: set<nat>) {
    l.Ok() && |img| == l.total && Marks(img, l.DataBitmap(), l.dataBitmapBlocks, l.DataArea(), used)
  }

  /** The images agree outside the data bitmap. */
  ghost predicate OnlyBitmap(img: Image, img': Image, l: Layout) {
    |img'| == |img| && forall b :: 0 <= b < |img| && !(l.DataBitmap() <= b < l.DataArea()) ==> img'[b] == img[b]
  }

  /** While some data block is free, the block handed out lies on the device, in the data area. */
  method AllocData(c: BlockCacheManager, l: Layout, ghost used: set<nat>) returns (b: nat)
    requires FrontLocked(c, l) && DataMarks(c.view, l, used) && |used| < l.dataAreaBlocks
    modifies c
    ensures FrontLocked(c, l) && c.pinned == old(c.pinned) && OnlyBitmap(old(c.view), c.view, l)
    ensures l.DataArea() <= b < l.total && b !in used && DataMarks(c.view, l, used + {b})
  {
    var r := Alloc(c, l.DataBitmap(), l.dataBitmapBlocks, l.DataArea(), used);
    if r.None? || r.value >= l.dataAreaBlocks {
      IntervalCount(l.DataArea(), l.dataAreaBlocks, used);
      assert false;
    }
    b := r.value + l.DataArea();
  }

  lemma ListedAppend(vs: seq<nat>, b: nat)
    ensures Listed(vs + [b]) == Listed(vs) + {b}
  {
    var ws := vs + [b];
    forall x | x in Listed(vs) + {b} ensures x in Listed(ws) {
      if x in Listed(vs) {
        var k :| 0 <= k < |vs| && vs[k] == x;
        assert ws[k] == x;
      } else {
        assert ws[|vs|] == x;
      }
    }
  }

  /** Freshly allocated blocks: distinct blocks of the data area that were free. */
  ghost predicate Fresh(vs: seq<nat>, l: Layout, used: set<nat>) {
    Distinct(vs) && forall k :: 0 <= k < |vs| ==> l.DataArea() <= vs[k] < l.total && vs[k] !in used
  }

  lemma FreshAppend(vs: seq<nat>, l: Layout, used: set<nat>, b: nat)
    requires Fresh(vs, l, used) && l.DataArea() <= b < l.total && b !in used + Listed(vs)
    ensures Fresh(vs + [b], l, used) && used + Listed(vs + [b]) == used + Listed(vs) + {b}
  {
    ListedAppend(vs, b);
    assert forall k :: 0 <= k < |vs| ==> vs[k] in Listed(vs);
  }

  method AllocMany(c: BlockCacheManager, l: Layout, n: nat, ghost used: set<nat>) returns (vs: seq<u32>)
    requires FrontLocked(c, l) && DataMarks(c.view, l, used) && |used| + n <= l.dataAreaBlocks
    modifies c
    ensures FrontLocked(c, l) && c.pinned == old(c.pinned) && OnlyBitmap(old(c.view), c.view, l)
    ensures |vs| == n && Fresh(vs, l, used) && DataMarks(c.view, l, used + Listed(vs))
  {
    vs := [];
    assert used + Listed(vs) == used;
    var i := 0;
    while i < n
      invariant 0 <= i <= n && |vs| == i && Fresh(vs, l, used)
      invariant FrontLocked(c, l) && c.pinned == old(c.pinned) && OnlyBitmap(old(c.view), c.view, l)
      invariant DataMarks(c.view, l, used + Listed(vs))
    {
      ListCount(vs);
      var b := AllocData(c, l, used + Listed(vs));
      FreshAppend(vs, l, used, b);
      vs := vs + [b];
      i := i + 1;
    }
  }

  ghost predicate ReshapedOpened(k: int) { true }

  /** File `i` now owns the blocks `o'` and holds `f`, as the inode `d` says, which is still to be stored. */
  ghost predicate Reshaped(img: Image, img': Image, l: Layout, owned: seq<seq<nat>>, i: nat, o': seq<nat>,
                           f: seq<byte>, d: DiskInode)
  {
    && i < |owned| && |img'| == |img| && d.Ok() && d.size <= MAX_SIZE
    && forall k :: ReshapedOpened(k) ==> ReshapedTo(img, img', l, owned, i, o', f, d)
  }

  ghost predicate ReshapedTo(img: Image, img': Image, l: Layout, owned: seq<seq<nat>>, i: nat, o': seq<nat>,
                             f: seq<byte>, d: DiskInode)
    requires i < |owned|
  {
    && Separate(owned[i := o'], l) && OnlyTouched(img, img', l, i, owned[i], o')
    && (InodeBlock(l, i) < |img| ==> img'[InodeBlock(l, i)] == img[InodeBlock(l, i)])
    && DataMarks(img', l, Used(owned[i := o'])) && FreeZero(img', l, Used(owned[i := o']))
    && |o'| == TotalBlocks(d.size) && Indexes(img', d, o')
    && Stored(img', o', f, DataBlocks(d.size)) && Spare(img', d, |o'|)
  }

  lemma FreeIsZero(img: Image, l: Layout, used: set<nat>, b: nat)
    requires FreeZero(img, l, used) && l.DataArea() <= b < |img| && b !in used
    ensures img[b] == ZeroBlock()
  {
    assert FreeOpened(0);
  }

  /** The blocks a file owns and fresh ones together are private. */
  lemma GrownPrivate(owned: seq<seq<nat>>, l: Layout, i: nat, vs: seq<nat>, locked: set<nat>)
    requires Separate(owned, l) && i < |owned| && Fresh(vs, l, Used(owned))
    requires forall x :: x in locked ==> x < l.DataArea()
    ensures Separate(owned[i := owned[i] + vs], l) && Private(owned[i] + vs, l.total, locked)
    ensures Used(owned[i := owned[i] + vs]) == Used(owned) + Listed(vs)
  {
    SeparateGrow(owned, l, i, vs);
    SeparatePrivate(owned[i := owned[i] + vs], l, i, locked);
  }

  /** After growth the file holds its old bytes, padded with zeros up to its new size. */
  lemma GrownStored(img: Image, img1: Image, img': Image, l: Layout, used: set<nat>, o: seq<nat>, vs: seq<nat>,
                    f: seq<byte>, n: nat, locked: set<nat>)
    requires DataBlocks(|f|) <= n <= MAX_BLOCKS && |o| == TotalBlocks(|f|) && |o + vs| == SlotsFor(n)
    requires Stored(img, o, f, DataBlocks(|f|)) && FreeZero(img, l, used) && Fresh(vs, l, used) && |img| == l.total
    requires OnlyBitmap(img, img1, l) && OnlyIndexChanged(img1, img', o + vs) && Private(o + vs, |img|, locked)
    requires forall k :: 0 <= k < |o| ==> l.DataArea() <= o[k]
    ensures Stored(img', o + vs, f, n)
  {
    var all := o + vs;
    forall i | 0 <= i < n ensures StoredAt(img', all, f, i) {
      SlotsForCovers(n, i);
      SlotsForCovers(DataBlocks(|f|), i);
      var k := DataSlot(i);
      PrivateAt(all, |img|, locked, k);
      assert PrivateOpened(0);
      DataBlocksUntouched(img1, img', all, k);
      if i < DataBlocks(|f|) {
        assert StoredAt(img, o, f, i);
        assert all[k] == o[k];
      } else {
        FreeIsZero(img, l, used, all[k]);
        BlockOfPastEnd(f, i);
      }
    }
  }

  lemma GrownTouches(img: Image, img1: Image, img': Image, l: Layout, i: nat, o: seq<nat>, vs: seq<nat>)
    requires |o + vs| <= MAX_SLOTS && OnlyBitmap(img, img1, l) && OnlyIndexChanged(img1, img', o + vs)
    ensures OnlyTouched(img, img', l, i, o, o + vs)
    ensures forall b :: 0 <= b < |img| && b !in o + vs && !(l.DataBitmap() <= b < l.DataArea()) ==> img'[b] == img[b]
    ensures forall b :: 0 <= b < |img| && b !in o + vs ==> img'[b] == img1[b]
  {
    forall b | 0 <= b < |img| && b !in o + vs ensures img'[b] == img1[b] {
      forall m: nat ensures !IndexBlockAt(o + vs, b, m) {
      }
    }
  }

  lemma GrownFreeZero(img: Image, img': Image, l: Layout, used: set<nat>, o: seq<nat>, vs: seq<nat>)
    requires |img'| == |img| && FreeZero(img, l, used)
    requires forall k :: 0 <= k < |o| ==> o[k] in used
    requires forall b :: l.DataArea() <= b < |img| && b !in o + vs ==> img'[b] == img[b]
    ensures FreeZero(img', l, used + Listed(vs))
  {
    forall b | l.DataArea() <= b < |img'| && b !in used + Listed(vs) ensures img'[b] == ZeroBlock() {
      FreeIsZero(img, l, used, b);
      forall k | 0 <= k < |o + vs| ensures (o + vs)[k] != b {
        if k >= |o| {
          assert vs[k - |o|] in Listed(vs);
        }
      }
    }
  }

  /**
   `Inode::increase_size`: nothing happens when the file is longer already; otherwise the file
   is given the missing blocks and holds its old bytes followed by zeros.
   */
  method GrowFile(c: BlockCacheManager, l: Layout, ghost i: nat, newSize: u32, d0: DiskInode,
                  ghost owned: seq<seq<nat>>, ghost files: seq<seq<byte>>)
    returns (d: DiskInode, ghost o': seq<nat>)
    requires c.Ready() && i < |files| && c.pinned == {InodeBlock(l, i)} && Intact(c.view, l, owned, files)
    requires d0 == InodeIn(c.view, l, i) && newSize <= MAX_SIZE
    requires GrowthFits(files, i, newSize, l.dataAreaBlocks)
    modifies c
    ensures c.Ready() && c.pinned == old(c.pinned)
    ensures d.isDir == d0.isDir && d.size == (if newSize < |files[i]| then |files[i]| else newSize)
    ensures Reshaped(old(c.view), c.view, l, owned, i, o', files[i], d)
  {
    ghost var img, o := c.view, owned[i];
    InodeOnDevice(img, l, owned, files, i);
    if newSize < d0.size {
      d, o' := d0, o;
      ReshapedAlready(img, l, owned, files, i);
      return;
    }
    assert GrowthOpened(0);
    TotalBlocksGrow(d0.size, newSize);
    BlocksInUse(img, l, owned, files);
    var vs := AllocMany(c, l, TotalBlocks(newSize) - TotalBlocks(d0.size), Used(owned));
    o' := o + vs;
    ghost var img1 := c.view;
    AfterBitmap(img, img1, l, owned, files, i, vs, c.pinned);
    d := IncreaseSize(c, d0, newSize, vs, o);
    SpareGrown(img1, d0, newSize, o, vs, c.pinned);
    ReshapedByGrowth(img, img1, c.view, l, owned, files, i, vs, d);
  }

  lemma ReshapedAlready(img: Image, l: Layout, owned: seq<seq<nat>>, files: seq<seq<byte>>, i: nat)
    requires Intact(img, l, owned, files) && i < |files|
    ensures Reshaped(img, img, l, owned, i, owned[i], files[i], InodeIn(img, l, i))
  {
    assert IntactOpened(0);
    FileAt(img, l, owned, files, i);
    assert owned[i := owned[i]] == owned;
  }

  lemma ReshapedByGrowth(img: Image, img1: Image, img': Image, l: Layout, owned: seq<seq<nat>>, files: seq<seq<byte>>,
                      i: nat, vs: seq<nat>, d: DiskInode)
    requires Intact(img, l, owned, files) && i < |files| && Fresh(vs, l, Used(owned))
    requires OnlyBitmap(img, img1, l) && DataMarks(img1, l, Used(owned) + Listed(vs))
    requires |owned[i] + vs| == TotalBlocks(d.size) <= MAX_SLOTS && |files[i]| <= d.size <= MAX_SIZE
    requires OnlyIndexChanged(img1, img', owned[i] + vs) && Indexes(img', d, owned[i] + vs) && Spare(img', d, |owned[i] + vs|)
    ensures Reshaped(img, img', l, owned, i, owned[i] + vs, files[i], d)
  {
    var o, f := owned[i], files[i];
    assert IntactOpened(0);
    FileAt(img, l, owned, files, i);
    InodePositions(l, i, i);
    TotalBlocksGrow(|f|, d.size);
    GrownPrivate(owned, l, i, vs, {});
    BlocksInDataArea(owned, l, i);
    GrownStored(img, img1, img', l, Used(owned), o, vs, f, DataBlocks(d.size), {});
    GrownTouches(img, img1, img', l, i, o, vs);
    BlocksInDataArea(owned[i := o + vs], l, i);
    GrownFreeZero(img, img', l, Used(owned), o, vs);
    MarksFrame(img1, img', l.DataBitmap(), l.dataBitmapBlocks, l.DataArea(), Used(owned) + Listed(vs));
  }

  lemma TotalBlocksGrow(a: nat, b: nat)
    requires a <= b <= MAX_SIZE
    ensures TotalBlocks(a) <= TotalBlocks(b) <= MAX_SLOTS && DataBlocks(a) <= DataBlocks(b) <= MAX_BLOCKS
  {
    SlotsForMonotone(DataBlocks(a), DataBlocks(b));
    SlotsForCovers(DataBlocks(b), 0);
  }

  lemma BlocksInUse(img: Image, l: Layout, owned: seq<seq<nat>>, files: seq<seq<byte>>)
    requires Intact(img, l, owned, files)
    ensures |Used(owned)| == BlocksOf(files) && DataMarks(img, l, Used(owned))
  {
    assert IntactOpened(0);
    forall j | 0 <= j < |files| ensures |owned[j]| == TotalBlocks(|files[j]|) {
      FileAt(img, l, owned, files, j);
    }
    UsedCount(owned, l, files);
  }

  lemma BlocksInDataArea(owned: seq<seq<nat>>, l: Layout, i: nat)
    requires Separate(owned, l) && i < |owned|
    ensures forall k :: 0 <= k < |owned[i]| ==> l.DataArea() <= owned[i][k] && owned[i][k] in Used(owned)
  {
    forall k | 0 <= k < |owned[i]| ensures l.DataArea() <= owned[i][k] && owned[i][k] in Used(owned) {
      SeparateAt(owned, l, i, k);
      InUsed(owned, i, k);
    }
  }

  /** Writing the data bitmap does not disturb the index of a file, and the blocks it has and gets are private. */
  lemma AfterBitmap(img: Image, img1: Image, l: Layout, owned: seq<seq<nat>>, files: seq<seq<byte>>, i: nat, vs: seq<nat>,
                    locked: set<nat>)
    requires Intact(img, l, owned, files) && i < |files| && OnlyBitmap(img, img1, l) && Fresh(vs, l, Used(owned))
    requires locked == {InodeBlock(l, i)}
    ensures |owned[i]| == TotalBlocks(|files[i]|)
    ensures Indexes(img1, InodeIn(img, l, i), owned[i]) && Private(owned[i] + vs, |img1|, locked)
    ensures Spare(img1, InodeIn(img, l, i), |owned[i]|)
    ensures forall k :: 0 <= k < |vs| ==> vs[k] < |img1| && img1[vs[k]] == ZeroBlock()
  {
    assert IntactOpened(0);
    InodePositions(l, i, i);
    FileAt(img, l, owned, files, i);
    BlocksInDataArea(owned, l, i);
    SeparatePrivate(owned, l, i, {});
    IndexesElsewhere(img, img1, InodeIn(img, l, i), owned[i], {});
    SpareKept(img, img1, InodeIn(img, l, i), owned[i], {});
    forall k | 0 <= k < |vs| ensures vs[k] < |img1| && img1[vs[k]] == ZeroBlock() {
      FreeIsZero(img, l, Used(owned), vs[k]);
    }
    GrownPrivate(owned, l, i, vs, locked);
  }

  /** Release one block: it is zeroed and its bit cleared. */
  method DeallocData(c: BlockCacheManager, l: Layout, b: nat, ghost used: set<nat>)
    requires FrontLocked(c, l) && DataMarks(c.view, l, used) && b in used && l.DataArea() <= b < l.total
    modifies c
    ensures FrontLocked(c, l) && c.pinned == old(c.pinned) && DataMarks(c.view, l, used - {b})
    ensures c.view[b] == ZeroBlock() && OnlyBitmap(old(c.view)[b := ZeroBlock()], c.view, l)
  {
    ghost var img := c.view;
    c.Lock(b);
    c.Write(b, ZeroBlock());
    c.Unlock(b);
    MarksFrame(img, c.view, l.DataBitmap(), l.dataBitmapBlocks, l.DataArea(), used);
    MarksRange(img, l.DataBitmap(), l.dataBitmapBlocks, l.DataArea(), used, b);
    Dealloc(c, l.DataBitmap(), l.dataBitmapBlocks, b - l.DataArea(), l.DataArea(), used);
  }

  /** What releasing the blocks `vs` does to an image: they become zero, and outside them only the data bitmap changes. */
  ghost predicate Released(img: Image, img': Image, l: Layout, vs: seq<nat>) {
    && |img'| == |img|
    && (forall k :: 0 <= k < |vs| && vs[k] < |img| ==> img'[vs[k]] == ZeroBlock())
    && (forall b :: 0 <= b < |img| && b !in vs && !(l.DataBitmap() <= b < l.DataArea()) ==> img'[b] == img[b])
  }

  lemma ReleasedStep(img: Image, img1: Image, img2: Image, l: Layout, vs: seq<nat>, b: nat)
    requires Released(img, img1, l, vs) && l.DataArea() <= b < |img| && OnlyBitmap(img1[b := ZeroBlock()], img2, l)
    requires forall k :: 0 <= k < |vs| ==> l.DataArea() <= vs[k]
    ensures Released(img, img2, l, vs + [b])
  {
    var ws := vs + [b];
    forall x | 0 <= x < |img| && x !in ws && !(l.DataBitmap() <= x < l.DataArea()) ensures img2[x] == img[x] {
      assert ws[|vs|] == b;
      assert forall k :: 0 <= k < |vs| ==> ws[k] == vs[k];
    }
  }

  method DeallocMany(c: BlockCacheManager, l: Layout, vs: seq<nat>, ghost used: set<nat>)
    requires FrontLocked(c, l) && DataMarks(c.view, l, used) && Distinct(vs)
    requires forall k :: 0 <= k < |vs| ==> vs[k] in used && l.DataArea() <= vs[k] < l.total
    modifies c
    ensures FrontLocked(c, l) && c.pinned == old(c.pinned)
    ensures DataMarks(c.view, l, used - Listed(vs)) && Released(old(c.view), c.view, l, vs)
  {
    assert vs[..0] == [] && used - Listed([]) == used;
    var i := 0;
    while i < |vs|
      invariant 0 <= i <= |vs|
      invariant FrontLocked(c, l) && c.pinned == old(c.pinned)
      invariant DataMarks(c.view, l, used - Listed(vs[..i])) && Released(old(c.view), c.view, l, vs[..i])
    {
      ghost var img1 := c.view;
      DeallocData(c, l, vs[i], used - Listed(vs[..i]));
      ReleasedStep(old(c.view), img1, c.view, l, vs[..i], vs[i]);
      ListedAppend(vs[..i], vs[i]);
      assert vs[..i] + [vs[i]] == vs[..i + 1];
      assert used - Listed(vs[..i]) - {vs[i]} == used - Listed(vs[..i + 1]);
      i := i + 1;
    }
    assert vs[..|vs|] == vs;
  }
}
