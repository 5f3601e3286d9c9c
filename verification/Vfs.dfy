/**
 The file system as clients use it (easy-fs/src/vfs.rs and efs.rs): every operation refines an
 operation on a list of byte sequences, one per inode.
 */
module Vfs {
  import opened Basics
  import opened Options
  import opened Bytes
  import opened BlockCache
  import opened InodeIndex
  import opened SpareSlots
  import opened FileContent
  import opened DiskInodeData
  import opened Bitmap
  import opened EfsLayout
  import opened EfsState
  import opened EfsAlloc
  import opened Directory

  /** Where an inode is stored: `get_disk_inode_pos`. */
  datatype Inode = Inode(blockId: nat, blockOffset: nat)

  function DiskInodePos(l: Layout, i: nat): Inode {
    Inode(l.InodeArea() + i / 4, i % 4 * 128)
  }

  /** Inodes lie one after the other, 128 bytes each, from the beginning of the inode area on, and none across two blocks. */
  lemma InodesInLine(l: Layout, i: nat)
    ensures var ino := DiskInodePos(l, i);
            512 * ino.blockId + ino.blockOffset == 512 * (1 + l.inodeBitmapBlocks) + 128 * i && ino.blockOffset + 128 <= 512
  {
  }

  /**
   A write looks up the block it starts in, even when it has nothing to write. It goes wrong only
   when it is empty, starts at or past the end of the file, on a block boundary, and the number of
   that block is stuck.
   */
  predicate Lands(size: nat, offset: nat, len: nat) {
    len > 0 || offset < size || offset % 512 != 0 || !Stuck(offset / 512)
  }

  lemma WriteTouchesOwnBlock(size: nat, offset: nat, len: nat)
    ensures var grown := if size < offset + len then offset + len else size;
            offset / 512 < DataBlocks(grown) <==> len > 0 || offset < size || offset % 512 != 0
  {
  }

  lemma LandsSomewhere(size: nat, offset: nat, len: nat, grown: nat)
    requires Lands(size, offset, len) && grown == if size < offset + len then offset + len else size
    ensures offset / 512 < DataBlocks(grown) || (offset == grown && !Stuck(offset / 512))
  {
    WriteTouchesOwnBlock(size, offset, len);
  }

  /** All blocks that the lookup of a data block of the file goes through are on the device. */
  lemma OwnBlockLooksUp(img: Image, d: DiskInode, o: seq<nat>, i: nat)
    requires Indexes(img, d, o) && Private(o, |img|, {}) && i < MAX_BLOCKS && DataSlot(i) < |o|
    ensures LooksUp(img, d, i)
  {
    var k := DataSlot(i);
    DataSlotLocation(i);
    IndexesAt(img, d, o, k);
    PrivateAt(o, |img|, {}, k);
    if 28 <= i < 156 {
      IndexesAt(img, d, o, 28);
      PrivateAt(o, |img|, {}, 28);
    } else if 156 <= i {
      var a := (i - 156) / 128;
      SecondSlotNumber(a);
      IndexesAt(img, d, o, 157);
      PrivateAt(o, |img|, {}, 157);
      IndexesAt(img, d, o, 158 + 129 * a);
      PrivateAt(o, |img|, {}, 158 + 129 * a);
    }
  }

  /** A file that has been grown for a write, as far as the lookup of its blocks is concerned. */
  lemma ReshapedIndex(img: Image, img1: Image, l: Layout, owned: seq<seq<nat>>, files: seq<seq<byte>>, i: nat,
                      o': seq<nat>, d: DiskInode)
    requires Intact(img, l, owned, files) && i < |files| && Reshaped(img, img1, l, owned, i, o', files[i], d)
    ensures Indexes(img1, d, o') && Private(o', |img1|, {}) && Spare(img1, d, |o'|) && |o'| == TotalBlocks(d.size) <= MAX_SLOTS
    ensures |img1| > 0 && Word(img1[0], 0) == EFS_MAGIC
  {
    assert IntactOpened(0) && ReshapedOpened(0);
    SeparatePrivate(owned[i := o'], l, i, {});
    UntouchedFront(img, img1, l, owned, i, o');
  }

  /**
   Once the file has been grown for the write, the first lookup of the write stays on the device
   exactly when the write lands. The exception needs a device of more than `EFS_MAGIC` blocks.
   */
  lemma WriteLooksUp(img: Image, img1: Image, l: Layout, owned: seq<seq<nat>>, files: seq<seq<byte>>, i: nat,
                     o': seq<nat>, d: DiskInode, offset: nat, len: nat)
    requires Intact(img, l, owned, files) && i < |files| && Reshaped(img, img1, l, owned, i, o', files[i], d)
    requires d.size == if |files[i]| < offset + len then offset + len else |files[i]|
    ensures LooksUp(img1, d, offset / 512) <==>
            || Lands(|files[i]|, offset, len)
            || (offset < MAX_SIZE && EFS_MAGIC < |img1| && (offset / 512 == 156 ==> WordAt(img1, EFS_MAGIC, 0) < |img1|))
  {
    var n := offset / 512;
    ReshapedIndex(img, img1, l, owned, files, i, o', d);
    WriteTouchesOwnBlock(|files[i]|, offset, len);
    if n < DataBlocks(d.size) {
      SlotsForCovers(DataBlocks(d.size), n);
      OwnBlockLooksUp(img1, d, o', n);
    } else {
      assert n == DataBlocks(d.size) <= MAX_BLOCKS;
      assert IndexesOpened(0) && PrivateOpened(0);
      LookupAtEnd(img1, d, n);
    }
  }

  lemma ReshapedByData(img: Image, img1: Image, img2: Image, l: Layout, owned: seq<seq<nat>>, i: nat, o': seq<nat>,
                       f: seq<byte>, g: seq<byte>, d: DiskInode)
    requires Reshaped(img, img1, l, owned, i, o', f, d) && i < l.Inodes() && l.Ok()
    requires OnlyDataChanged(img1, img2, o', DataBlocks(d.size))
    requires Indexes(img2, d, o') && Stored(img2, o', g, DataBlocks(d.size))
    ensures Reshaped(img, img2, l, owned, i, o', g, d)
  {
    assert ReshapedOpened(0);
    var owned' := owned[i := o'];
    InodePositions(l, i, i);
    BlocksInDataArea(owned', l, i);
    forall b | 0 <= b < |img1| && img2[b] != img1[b] ensures b in o' && l.DataArea() <= b && b in Used(owned') {
      var k :| DataBlockAt(o', DataBlocks(d.size), b, k);
      assert owned'[i][DataSlot(k)] == b;
    }
    SeparatePrivate(owned', l, i, {});
    SpareAfterData(img1, img2, d, o', DataBlocks(d.size), {});
    MarksFrame(img1, img2, l.DataBitmap(), l.dataBitmapBlocks, l.DataArea(), Used(owned'));
    FreeZeroFrame(img1, img2, l, Used(owned'));
  }

  lemma FreeZeroFrame(img: Image, img': Image, l: Layout, used: set<nat>)
    requires FreeZero(img, l, used) && |img'| == |img|
    requires forall b :: l.DataArea() <= b < |img| && img'[b] != img[b] ==> b in used
    ensures FreeZero(img', l, used)
  {
    forall b | l.DataArea() <= b < |img| && b !in used ensures img'[b] == ZeroBlock() {
      FreeIsZero(img, l, used, b);
    }
  }

  /** Storing the inode completes an update. */
  lemma StoreInode(img: Image, img2: Image, l: Layout, owned: seq<seq<nat>>, files: seq<seq<byte>>, i: nat,
                   o': seq<nat>, g: seq<byte>, d: DiskInode)
    requires Intact(img, l, owned, files) && i < |files| && Reshaped(img, img2, l, owned, i, o', g, d)
    requires d.isDir == (i == 0) && d.size == |g|
    ensures InodeBlock(l, i) < |img2|
    ensures var img3 := img2[InodeBlock(l, i) := PutInode(img2[InodeBlock(l, i)], i % 4, d)];
            Intact(img3, l, owned[i := o'], files[i := g])
  {
    assert IntactOpened(0) && ReshapedOpened(0);
    InodePositions(l, i, i);
    var b := InodeBlock(l, i);
    var img3 := img2[b := PutInode(img2[b], i % 4, d)];
    var owned' := owned[i := o'];
    BlocksInDataArea(owned', l, i);
    assert forall k :: 0 <= k < |o'| ==> owned'[i][k] == o'[k];
    SeparatePrivate(owned', l, i, {});
    IndexesElsewhere(img2, img3, d, o', {});
    SpareKept(img2, img3, d, o', {});
    StoredElsewhere(img2, img3, o', g, DataBlocks(|g|));
    MarksFrame(img2, img3, l.DataBitmap(), l.dataBitmapBlocks, l.DataArea(), Used(owned'));
    FreeZeroFrame(img2, img3, l, Used(owned'));
    ConsistentUpdate(img, img3, l, owned, files, i, o', g, d);
  }

  lemma ReshapedByRelease(img: Image, img': Image, l: Layout, owned: seq<seq<nat>>, files: seq<seq<byte>>, i: nat, d: DiskInode)
    requires Intact(img, l, owned, files) && i < |files| && Unused(d)
    requires Released(img, img', l, owned[i]) && DataMarks(img', l, Used(owned) - Listed(owned[i]))
    ensures Reshaped(img, img', l, owned, i, [], [], d)
    ensures Used(owned[i := []]) == Used(owned) - Listed(owned[i])
  {
    assert IntactOpened(0);
    InodePositions(l, i, i);
    SeparateClear(owned, l, i);
    var owned' := owned[i := []];
    BlocksInDataArea(owned, l, i);
    forall b | l.DataArea() <= b < |img| && b !in Used(owned') ensures img'[b] == ZeroBlock() {
      if b in owned[i] {
        var k :| 0 <= k < |owned[i]| && owned[i][k] == b;
      } else {
        assert b !in Listed(owned[i]);
        FreeIsZero(img, l, Used(owned), b);
      }
    }
    assert IndexesOpened(0);
    assert Owned(img', d, 0) == [];
    SpareUnused(img', d);
  }

  function EmptyInode(isDir: bool): (d: DiskInode)
    ensures d.Ok()
  {
    DiskInode(0, seq(28, _ => 0), 0, 0, isDir)
  }

  function SuperBlock(b: Block, l: Layout): Block
    requires l.Ok()
  {
    PutWord(PutWord(PutWord(PutWord(PutWord(PutWord(b, 0, EFS_MAGIC), 1, l.total), 2, l.inodeBitmapBlocks),
                            3, l.inodeAreaBlocks), 4, l.dataBitmapBlocks), 5, l.dataAreaBlocks)
  }

  lemma SuperBlockStored(b: Block, l: Layout)
    requires l.Ok()
    ensures SuperBlockIs(SuperBlock(b, l), l)
  {
    var b1 := PutWord(b, 0, EFS_MAGIC);
    var b2 := PutWord(b1, 1, l.total);
    var b3 := PutWord(b2, 2, l.inodeBitmapBlocks);
    var b4 := PutWord(b3, 3, l.inodeAreaBlocks);
    var b5 := PutWord(b4, 4, l.dataBitmapBlocks);
    forall j | 0 <= j < 6 ensures Word(SuperBlock(b, l), j) ==
      [EFS_MAGIC, l.total, l.inodeBitmapBlocks, l.inodeAreaBlocks, l.dataBitmapBlocks, l.dataAreaBlocks][j]
    {
      WordOfPutWord(b, 0, EFS_MAGIC, j);
      WordOfPutWord(b1, 1, l.total, j);
      WordOfPutWord(b2, 2, l.inodeBitmapBlocks, j);
      WordOfPutWord(b3, 3, l.inodeAreaBlocks, j);
      WordOfPutWord(b4, 4, l.dataBitmapBlocks, j);
      WordOfPutWord(b5, 5, l.dataAreaBlocks, j);
    }
  }

  /** A formatted image holds one file, the empty root directory, and no block is in use. */
  lemma FormattedConsistent(img: Image, l: Layout)
    requires l.Ok() && |img| == l.total && SuperBlockIs(img[0], l)
    requires Marks(img, 1, l.inodeBitmapBlocks, 0, Prefix(1))
    requires img[l.InodeArea()] == PutInode(ZeroBlock(), 0, EmptyInode(true))
    requires forall b :: l.InodeArea() < b < l.total ==> img[b] == ZeroBlock()
    ensures Consistent(img, l, [[]], [[]])
  {
    var d := EmptyInode(true);
    assert Used([[]]) == {};
    MarksZero(img, l.DataBitmap(), l.dataBitmapBlocks, l.DataArea());
    assert IndexesOpened(0);
    assert Owned(img, d, 0) == [];
    SpareUnused(img, d);
    OwnFile(img, l, 0, [], [], d, ZeroBlock());
    FilesOkFrom(img, l, [[]], [[]]);
  }

  /** Clear all blocks. */
  method ZeroAll(c: BlockCacheManager, n: nat)
    requires c.Ready() && c.pinned == {} && |c.view| == n
    modifies c
    ensures c.Ready() && c.pinned == {} && |c.view| == n
    ensures forall b :: 0 <= b < |c.view| ==> c.view[b] == ZeroBlock()
  {
    var i := 0;
    while i < n
      invariant 0 <= i <= n == |c.view| && c.Ready() && c.pinned == {}
      invariant forall b :: 0 <= b < i ==> c.view[b] == ZeroBlock()
    {
      c.Lock(i);
      c.Write(i, ZeroBlock());
      c.Unlock(i);
      i := i + 1;
    }
  }

  /** A cleared image with its super block. */
  ghost predicate Blank(img: Image, l: Layout) {
    l.Ok() && |img| == l.total && SuperBlockIs(img[0], l) && forall b :: 0 < b < l.total ==> img[b] == ZeroBlock()
  }

  method InitSuperBlock(c: BlockCacheManager, l: Layout)
    requires c.Ready() && c.pinned == {} && |c.view| == l.total && l.Ok()
    requires forall b :: 0 <= b < |c.view| ==> c.view[b] == ZeroBlock()
    modifies c
    ensures c.Ready() && c.pinned == {} && Blank(c.view, l)
  {
    c.Lock(0);
    var block := c.Read(0);
    SuperBlockStored(block, l);
    c.Write(0, SuperBlock(block, l));
    c.Unlock(0);
  }

  method InitInode(c: BlockCacheManager, ino: Inode, isDir: bool)
    requires c.Ready() && c.pinned == {} && ino.blockId < |c.view| && ino.blockOffset / 128 < 4
    modifies c
    ensures c.Ready() && c.pinned == {}
    ensures c.view == old(c.view)[ino.blockId := PutInode(old(c.view)[ino.blockId], ino.blockOffset / 128, EmptyInode(isDir))]
  {
    c.Lock(ino.blockId);
    var block := c.Read(ino.blockId);
    c.Write(ino.blockId, PutInode(block, ino.blockOffset / 128, EmptyInode(isDir)));
    c.Unlock(ino.blockId);
  }

  /** Clear the device, write the super block and allocate inode 0 for the root directory. */
  method Format(c: BlockCacheManager, l: Layout)
    requires c.Ready() && c.pinned == {} && |c.view| == l.total && l.Ok()
    modifies c
    ensures c.Ready() && c.pinned == {} && Intact(c.view, l, [[]], [[]])
  {
    ZeroAll(c, l.total);
    InitSuperBlock(c, l);
    FormatInodes(c, l);
  }

  method FormatInodes(c: BlockCacheManager, l: Layout)
    requires c.Ready() && c.pinned == {} && Blank(c.view, l)
    modifies c
    ensures c.Ready() && c.pinned == {} && Intact(c.view, l, [[]], [[]])
  {
    ghost var img0 := c.view;
    BlankMarks(img0, l);
    var root := AllocInode(c, l, 0);
    ghost var img1 := c.view;
    InitInode(c, DiskInodePos(l, root), true);
    Formatted(img0, img1, c.view, l);
  }

  lemma BlankMarks(img: Image, l: Layout)
    requires Blank(img, l)
    ensures Marks(img, 1, l.inodeBitmapBlocks, 0, Prefix(0))
  {
    assert Prefix(0) == {};
    MarksZero(img, 1, l.inodeBitmapBlocks, 0);
  }

  /** The next inode: with the first `n` allocated it is number `n`. */
  method AllocInode(c: BlockCacheManager, l: Layout, ghost n: nat) returns (i: nat)
    requires c.Ready() && c.pinned == {} && n < l.Inodes() && Marks(c.view, 1, l.inodeBitmapBlocks, 0, Prefix(n))
    modifies c
    ensures c.Ready() && c.pinned == {} && |c.view| == old(|c.view|)
    ensures i == n && Marks(c.view, 1, l.inodeBitmapBlocks, 0, Prefix(n + 1))
    ensures forall b :: 0 <= b < |c.view| && !(1 <= b < l.InodeArea()) ==> c.view[b] == old(c.view)[b]
  {
    assert n !in Prefix(n);
    var r := Alloc(c, 1, l.inodeBitmapBlocks, 0, Prefix(n));
    assert Prefix(n + 1) == Prefix(n) + {n};
    i := r.value;
  }

  lemma Formatted(img0: Image, img1: Image, img: Image, l: Layout)
    requires Blank(img0, l) && |img1| == l.total
    requires Marks(img1, 1, l.inodeBitmapBlocks, 0, Prefix(1))
    requires forall b :: 0 <= b < l.total && !(1 <= b < l.InodeArea()) ==> img1[b] == img0[b]
    requires img == img1[l.InodeArea() := PutInode(img1[l.InodeArea()], 0, EmptyInode(true))]
    ensures Intact(img, l, [[]], [[]])
  {
    MarksFrame(img1, img, 1, l.inodeBitmapBlocks, 0, Prefix(1));
    FormattedConsistent(img, l);
  }

  /** `get_block_cache(block_id).lock()`, and what is in the block. */
  method LockBlock(c: BlockCacheManager, b: nat) returns (block: Block)
    requires c.Ready() && c.pinned == {} && b < |c.view|
    modifies c
    ensures c.Ready() && c.pinned == {b} && c.view == old(c.view) && (old(c.Synced()) ==> c.Synced())
    ensures block == c.view[b]
  {
    c.Lock(b);
    block := c.Read(b);
  }

  /** Lock the block of inode `i` and look at the inode. */
  method LockInode(c: BlockCacheManager, l: Layout, ino: Inode, ghost i: nat) returns (d: DiskInode)
    requires c.Ready() && c.pinned == {} && InodeBlock(l, i) < |c.view| && ino == DiskInodePos(l, i)
    modifies c
    ensures c.Ready() && c.pinned == {InodeBlock(l, i)} && c.view == old(c.view) && (old(c.Synced()) ==> c.Synced())
    ensures d == InodeIn(c.view, l, i)
  {
    var block := LockBlock(c, ino.blockId);
    d := InodeAt(block, ino.blockOffset / 128);
  }

  /** Store the inode in its block and release the block. */
  method UnlockInode(c: BlockCacheManager, l: Layout, ino: Inode, d: DiskInode, ghost i: nat, ghost o': seq<nat>, ghost g: seq<byte>,
                     ghost img: Image, ghost owned: seq<seq<nat>>, ghost files: seq<seq<byte>>)
    requires c.Ready() && i < |files| && ino == DiskInodePos(l, i) && c.pinned == {InodeBlock(l, i)}
    requires Intact(img, l, owned, files) && Reshaped(img, c.view, l, owned, i, o', g, d)
    requires d.isDir == (i == 0) && d.size == |g|
    modifies c
    ensures c.Ready() && c.pinned == {} && Intact(c.view, l, owned[i := o'], files[i := g])
  {
    StoreInode(img, c.view, l, owned, files, i, o', g, d);
    ghost var stored := c.view[ino.blockId := PutInode(c.view[ino.blockId], i % 4, d)];
    var block := c.Read(ino.blockId);
    c.Write(ino.blockId, PutInode(block, ino.blockOffset / 128, d));
    assert c.view == stored;
    c.Unlock(ino.blockId);
  }

  /** `DiskInode::write_at` on a file grown to the size of the write. */
  method WriteData(c: BlockCacheManager, l: Layout, d: DiskInode, offset: nat, buf: seq<byte>, ghost i: nat, ghost o': seq<nat>,
                   ghost img: Image, ghost owned: seq<seq<nat>>, ghost f: seq<byte>)
    returns (n: nat)
    requires c.Ready() && l.Ok() && i < l.Inodes() && c.pinned == {InodeBlock(l, i)}
    requires Reshaped(img, c.view, l, owned, i, o', f, d)
    requires offset + |buf| <= d.size && |f| <= d.size
    requires offset / 512 < DataBlocks(d.size) || (offset == d.size && !Stuck(offset / 512))
    modifies c
    ensures c.Ready() && c.pinned == old(c.pinned) && n == |buf|
    ensures Reshaped(img, c.view, l, owned, i, o', Overwrite(f, offset, buf), d)
  {
    ghost var img1 := c.view;
    ReshapedWritable(img, img1, l, owned, i, o', f, d);
    n := DiskInodeData.WriteAt(c, d, offset, buf, o', f);
    assert buf[..n] == buf;
    ReshapedByData(img, img1, c.view, l, owned, i, o', f, Overwrite(f, offset, buf), d);
  }

  /** Grow the file as far as the write needs, then write, with the inode locked throughout. */
  method StoreFile(c: BlockCacheManager, l: Layout, ino: Inode, offset: nat, buf: seq<byte>, ghost i: nat,
                   ghost owned: seq<seq<nat>>, ghost files: seq<seq<byte>>)
    returns (n: nat, ghost o': seq<nat>)
    requires c.Ready() && c.pinned == {} && Intact(c.view, l, owned, files)
    requires i < |files| && ino == DiskInodePos(l, i)
    requires Lands(|files[i]|, offset, |buf|)
    requires offset + |buf| <= MAX_SIZE && BlocksOf(files[i := Overwrite(files[i], offset, buf)]) <= l.dataAreaBlocks
    modifies c
    ensures c.Ready() && c.pinned == {} && n == |buf|
    ensures Intact(c.view, l, owned[i := o'], files[i := Overwrite(files[i], offset, buf)])
  {
    ghost var img, f := c.view, files[i];
    WriteFits(files, i, offset, buf, l.dataAreaBlocks);
    InodeOnDevice(img, l, owned, files, i);
    LandsSomewhere(|f|, offset, |buf|, |Overwrite(f, offset, buf)|);
    var d := LockInode(c, l, ino, i);
    d, o' := GrowFile(c, l, i, offset + |buf|, d, owned, files);
    n := WriteData(c, l, d, offset, buf, i, o', img, owned, f);
    UnlockInode(c, l, ino, d, i, o', Overwrite(f, offset, buf), img, owned, files);
  }

  lemma ReshapedWritable(img: Image, img1: Image, l: Layout, owned: seq<seq<nat>>, i: nat, o': seq<nat>, f: seq<byte>, d: DiskInode)
    requires Reshaped(img, img1, l, owned, i, o', f, d) && l.Ok() && i < l.Inodes()
    ensures Indexes(img1, d, o') && Private(o', |img1|, {InodeBlock(l, i)}) && Stored(img1, o', f, DataBlocks(d.size))
    ensures d.size % 512 == 0 && !Stuck(d.size / 512) ==> PastLast(img1, d, o', d.size / 512, {InodeBlock(l, i)})
  {
    assert ReshapedOpened(0);
    InodePositions(l, i, i);
    SeparatePrivate(owned[i := o'], l, i, {InodeBlock(l, i)});
  }

  /** `clear_size` and the release of the blocks it returns. */
  method ReleaseBlocks(c: BlockCacheManager, l: Layout, d0: DiskInode, ghost i: nat, ghost owned: seq<seq<nat>>, ghost files: seq<seq<byte>>)
    returns (d: DiskInode)
    requires c.Ready() && i < |files| && c.pinned == {InodeBlock(l, i)} && Intact(c.view, l, owned, files)
    requires d0 == InodeIn(c.view, l, i)
    modifies c
    ensures c.Ready() && c.pinned == old(c.pinned) && d.isDir == d0.isDir && d.size == 0
    ensures Reshaped(old(c.view), c.view, l, owned, i, [], [], d)
    ensures Used(owned[i := []]) == Used(owned) - Listed(owned[i])
  {
    ghost var img := c.view;
    InodeOnDevice(img, l, owned, files, i);
    FileReadable(img, l, owned, files, i);
    BlocksInUse(img, l, owned, files);
    var vs;
    d, vs := ClearSize(c, d0, owned[i]);
    ClearedUnused(img, d0, DataBlocks(d0.size));
    assert |vs| == TotalBlocks(d0.size);
    assert Distinct(vs) && Within(vs, l.total) by { assert PrivateOpened(0); }
    FileBlocksInUse(img, l, owned, files, i);
    DeallocMany(c, l, vs, Used(owned));
    ReshapedByRelease(img, c.view, l, owned, files, i, d);
  }

  lemma FileBlocksInUse(img: Image, l: Layout, owned: seq<seq<nat>>, files: seq<seq<byte>>, i: nat)
    requires Intact(img, l, owned, files) && i < |files|
    ensures forall k :: 0 <= k < |owned[i]| ==> l.DataArea() <= owned[i][k] && owned[i][k] in Used(owned)
  {
    assert IntactOpened(0);
    BlocksInDataArea(owned, l, i);
  }

  /** The entry of the `i`-th file created. */
  method ReadDirent(c: BlockCacheManager, d: DiskInode, i: nat, ghost o: seq<nat>, ghost names: seq<Name>) returns (entry: seq<byte>)
    requires c.Ready() && |c.pinned| <= 1 && Indexes(c.view, d, o) && Private(o, |c.view|, c.pinned)
    requires NamesOk(names) && d.size == 32 * |names| && i < |names|
    requires Stored(c.view, o, DirBytes(names), DataBlocks(d.size))
    modifies c
    ensures c.Ready() && c.view == old(c.view) && c.pinned == old(c.pinned) && (old(c.Synced()) ==> c.Synced())
    ensures |entry| == 32 && NameOf(entry) == Some(names[i]) && InodeNumberOf(entry) == i + 1
  {
    entry := DiskInodeData.ReadAt(c, d, 32 * i, 32, o, DirBytes(names));
    EntryOf(names, i, entry);
  }

  /** `find_inode_id`: the inode number of the first entry with that name. */
  method FindInodeId(c: BlockCacheManager, d: DiskInode, name: Name, ghost o: seq<nat>, ghost names: seq<Name>) returns (r: Option<u32>)
    requires c.Ready() && |c.pinned| <= 1 && Indexes(c.view, d, o) && Private(o, |c.view|, c.pinned)
    requires NamesOk(names) && d.size == 32 * |names| && Stored(c.view, o, DirBytes(names), DataBlocks(d.size))
    modifies c
    ensures c.Ready() && c.view == old(c.view) && c.pinned == old(c.pinned) && (old(c.Synced()) ==> c.Synced())
    ensures r == if name in names then Some(IndexOf(names, name) + 1) else None
  {
    var count := d.size / 32;
    var i := 0;
    while i < count
      invariant 0 <= i <= count && forall j :: 0 <= j < i ==> names[j] != name
      invariant c.Ready() && c.view == old(c.view) && c.pinned == old(c.pinned) && (old(c.Synced()) ==> c.Synced())
    {
      var entry := ReadDirent(c, d, i, o, names);
      if NameOf(entry) == Some(name) {
        return Some(InodeNumberOf(entry));
      }
      i := i + 1;
    }
    return None;
  }

  /** The files with one more, empty, and `names` in the directory. */
  ghost function WithFile(files: seq<seq<byte>>, names: seq<Name>): seq<seq<byte>>
    requires NamesOk(names)
  {
    (files + [[]])[0 := DirBytes(names)]
  }

  /** There is an inode left, and room for the entry of the new file. */
  ghost predicate CanCreate(l: Layout, files: seq<seq<byte>>, names: seq<Name>, name: Name) {
    && |files| < l.Inodes() && NamesOk(names + [name]) && 32 * (|names| + 1) <= MAX_SIZE
    && BlocksOf(WithFile(files, names + [name])) <= l.dataAreaBlocks
  }

  class EasyFileSystem {
    /** The files of the root directory, in creation order. */
    ghost var names: seq<Name>
    const c: BlockCacheManager
    const l: Layout
    /** The blocks of each inode, in supply order. */
    ghost var owned: seq<seq<nat>>
    /** The contents of each inode's file. */
    ghost var files: seq<seq<byte>>

    ghost predicate Valid()
      reads this, c
    {
      c.Ready() && c.pinned == {} && Intact(c.view, l, owned, files)
    }

    /** The root directory lists the files `names`: file `j` is inode `j + 1`. */
    ghost predicate DirValid()
      reads this, c
    {
      Valid() && NamesOk(names) && |files| == |names| + 1 && files[0] == DirBytes(names)
    }

    /** Format a device of `total` blocks: the root directory is its only file, and it is empty. */
    constructor Create(device: seq<Block>, total: nat, inodeBitmapBlocks: nat)
      requires |device| == total < 0x1_0000_0000
      requires 0 < inodeBitmapBlocks && 1 + 1025 * inodeBitmapBlocks <= total
      ensures Valid() && fresh(c) && l == Plan(total, inodeBitmapBlocks)
      ensures c.Synced() && files == [[]] && Used(owned) == {} && names == [] && DirValid()
    {
      PlanOk(total, inodeBitmapBlocks, 0);
      var plan := Plan(total, inodeBitmapBlocks);
      var cache := new BlockCacheManager(device);
      Format(cache, plan);
      cache.SyncAll();
      c, l := cache, plan;
      owned, files, names := [[]], [[]], [];
    }

    /** Open a device that holds a file system: the layout is rebuilt from the super block and the files are all there. */
    constructor Open(device: seq<Block>, ghost layout: Layout, ghost owned: seq<seq<nat>>, ghost files: seq<seq<byte>>,
                     ghost names: seq<Name>)
      requires Intact(device, layout, owned, files)
      ensures Valid() && fresh(c) && l == layout && c.Synced()
      ensures c.view == device && this.owned == owned && this.files == files && this.names == names
    {
      assert |device| > 0 && SuperBlockIs(device[0], layout) by { assert IntactOpened(0); }
      var cache := new BlockCacheManager(device);
      cache.Lock(0);
      var b := cache.Read(0);
      cache.Unlock(0);
      assert Word(b, 0) == EFS_MAGIC;
      c, l := cache, Layout(Word(b, 1), Word(b, 2), Word(b, 3), Word(b, 4), Word(b, 5));
      this.owned, this.files, this.names := owned, files, names;
    }

    /** A read returns exactly the part of the range inside the file, and changes nothing. */
    method ReadAt(ino: Inode, offset: nat, len: nat, ghost i: nat) returns (data: seq<byte>)
      requires Valid() && i < |files| && ino == DiskInodePos(l, i)
      modifies c
      ensures Valid() && c.view == old(c.view) && (old(c.Synced()) ==> c.Synced())
      ensures |data| == (if offset >= |files[i]| then 0 else Min(len, |files[i]| - offset)) && data == Slice(files[i], offset, len)
      ensures forall k :: 0 <= k < |data| ==> data[k] == files[i][offset + k]
    {
      InodeOnDevice(c.view, l, owned, files, i);
      var d := LockInode(c, l, ino, i);
      FileReadable(c.view, l, owned, files, i);
      data := DiskInodeData.ReadAt(c, d, offset, len, owned[i], files[i]);
      c.Unlock(ino.blockId);
    }

    /** `OSInode::read_all`: reads of 512 bytes until one delivers nothing give all of the file from the offset on. */
    method ReadAll(ino: Inode, start: nat, ghost i: nat) returns (v: seq<byte>, offset: nat)
      requires Valid() && i < |files| && ino == DiskInodePos(l, i)
      modifies c
      ensures Valid() && c.view == old(c.view) && (old(c.Synced()) ==> c.Synced())
      ensures v == if start <= |files[i]| then files[i][start..] else []
      ensures offset == start + |v|
    {
      v, offset := [], start;
      while true
        invariant Valid() && c.view == old(c.view) && (old(c.Synced()) ==> c.Synced())
        invariant offset == start + |v| && if start <= |files[i]| then v <= files[i][start..] else v == []
        decreases |files[i]| - offset
      {
        var data := ReadAt(ino, offset, 512, i);
        if |data| == 0 {
          break;
        }
        v, offset := v + data, offset + |data|;
      }
    }

    /**
     A write replaces exactly its range, extending the file and filling any gap past the old
     end with zeros; every other file stays as it was, and on return the device holds it all.
     For the writes that do not land, see `WriteLooksUp`.
     */
    method WriteAt(ino: Inode, offset: nat, buf: seq<byte>, ghost i: nat) returns (n: nat)
      requires Valid() && i < |files| && ino == DiskInodePos(l, i)
      requires Lands(|files[i]|, offset, |buf|)
      requires offset + |buf| <= MAX_SIZE && BlocksOf(files[i := Overwrite(files[i], offset, buf)]) <= l.dataAreaBlocks
      modifies `owned, `files, c
      ensures Valid() && c.Synced()
      ensures n == |buf| && files == old(files)[i := Overwrite(old(files[i]), offset, buf)]
    {
      n := WriteUnsynced(ino, offset, buf, i);
      c.SyncAll();
    }

    method WriteUnsynced(ino: Inode, offset: nat, buf: seq<byte>, ghost i: nat) returns (n: nat)
      requires Valid() && i < |files| && ino == DiskInodePos(l, i)
      requires Lands(|files[i]|, offset, |buf|)
      requires offset + |buf| <= MAX_SIZE && BlocksOf(files[i := Overwrite(files[i], offset, buf)]) <= l.dataAreaBlocks
      modifies `owned, `files, c
      ensures Valid()
      ensures n == |buf| && files == old(files)[i := Overwrite(old(files[i]), offset, buf)]
    {
      ghost var o';
      n, o' := StoreFile(c, l, ino, offset, buf, i, owned, files);
      owned, files := owned[i := o'], files[i := Overwrite(files[i], offset, buf)];
    }

    /** Clearing empties the file and gives back all its blocks; the source's check of their number cannot fail. */
    method Clear(ino: Inode, ghost i: nat)
      requires Valid() && i < |files| && ino == DiskInodePos(l, i)
      modifies `owned, `files, c
      ensures Valid() && c.Synced()
      ensures files == old(files)[i := []] && Used(owned) == old(Used(owned)) - Listed(old(owned[i]))
    {
      ghost var img := c.view;
      InodeOnDevice(img, l, owned, files, i);
      var d := LockInode(c, l, ino, i);
      d := ReleaseBlocks(c, l, d, i, owned, files);
      UnlockInode(c, l, ino, d, i, [], [], img, owned, files);
      owned, files := owned[i := []], files[i := []];
      c.SyncAll();
    }

    /** Look the name up in the root directory, which stays locked meanwhile. */
    method Lookup(name: Name) returns (id: Option<u32>, size: u32)
      requires DirValid()
      modifies c
      ensures DirValid() && c.view == old(c.view) && (old(c.Synced()) ==> c.Synced())
      ensures id == (if name in names then Some(IndexOf(names, name) + 1) else None) && size == |files[0]|
    {
      var root := DiskInodePos(l, 0);
      InodeOnDevice(c.view, l, owned, files, 0);
      var d := LockInode(c, l, root, 0);
      FileReadable(c.view, l, owned, files, 0);
      id := FindInodeId(c, d, name, owned[0], names);
      size := d.size;
      c.Unlock(root.blockId);
    }

    /** `find`: the place of the inode allocated when the name was created. */
    method Find(name: Name) returns (r: Option<Inode>)
      requires DirValid()
      modifies c
      ensures DirValid() && c.view == old(c.view) && (old(c.Synced()) ==> c.Synced())
      ensures r == if name in names then Some(DiskInodePos(l, IndexOf(names, name) + 1)) else None
    {
      var id, _ := Lookup(name);
      return if id.Some? then Some(DiskInodePos(l, id.value)) else None;
    }

    /** `ls`: the names in creation order. */
    method Ls() returns (v: seq<Name>)
      requires DirValid()
      modifies c
      ensures DirValid() && c.view == old(c.view) && (old(c.Synced()) ==> c.Synced())
      ensures v == names
    {
      var root := DiskInodePos(l, 0);
      InodeOnDevice(c.view, l, owned, files, 0);
      var d := LockInode(c, l, root, 0);
      FileReadable(c.view, l, owned, files, 0);
      v := [];
      var i := 0;
      while i < d.size / 32
        invariant 0 <= i <= |names| && v == names[..i]
        invariant c.Ready() && c.view == old(c.view) && c.pinned == {InodeBlock(l, 0)} && (old(c.Synced()) ==> c.Synced())
      {
        var entry := ReadDirent(c, d, i, owned[0], names);
        v := v + [NameOf(entry).value];
        i := i + 1;
      }
      c.Unlock(root.blockId);
    }

    /** Add an empty file: a fresh inode, marked and initialised. */
    method NewFile() returns (i: nat)
      requires Valid() && |files| < l.Inodes()
      modifies `owned, `files, c
      ensures Valid() && i == |old(files)| && files == old(files) + [[]]
    {
      ghost var img := c.view;
      assert l.Ok() && |img| == l.total && Marks(img, 1, l.inodeBitmapBlocks, 0, Prefix(|files|)) by { assert IntactOpened(0); }
      InodePositions(l, |files|, |files|);
      i := AllocInode(c, l, |files|);
      ghost var img1 := c.view;
      InitInode(c, DiskInodePos(l, i), false);
      IntactAppend(img, img1, c.view, l, owned, files, EmptyInode(false));
      owned, files := owned + [[]], files + [[]];
    }

    /**
     `create`: `None` exactly when the name exists; otherwise a new empty file whose name is
     appended to the directory. The preconditions on space are the absence of the panics.
     */
    method CreateFile(name: Name) returns (r: Option<Inode>)
      requires DirValid() && ValidName(name)
      requires name !in names ==> CanCreate(l, files, names, name)
      modifies this, c
      ensures DirValid() && (old(c.Synced()) ==> c.Synced())
      ensures name in old(names) ==> r == None && names == old(names) && files == old(files) && c.view == old(c.view)
      ensures name !in old(names) ==>
                && r == Some(DiskInodePos(l, |old(files)|)) && names == old(names) + [name]
                && files == WithFile(old(files), names) && c.Synced()
    {
      var id, size := Lookup(name);
      if id.Some? {
        return None;
      }
      var i := NewFile();
      Append(name, i, size / 32);
      c.SyncAll();
      return Some(DiskInodePos(l, i));
    }

    /** Append the entry of the new file `i` to the directory. */
    method Append(name: Name, i: nat, count: nat)
      requires Valid() && NamesOk(names) && NamesOk(names + [name])
      requires |files| == |names| + 2 && files[0] == DirBytes(names) && i == |names| + 1 && count == |names|
      requires 32 * (|names| + 1) <= MAX_SIZE && BlocksOf(files[0 := DirBytes(names + [name])]) <= l.dataAreaBlocks
      modifies this, c
      ensures DirValid() && names == old(names) + [name] && files == old(files)[0 := DirBytes(names)]
    {
      assert (names + [name])[|names|] == name;
      DirBytesAppend(names, name);
      var _ := WriteUnsynced(DiskInodePos(l, 0), 32 * count, Dirent(name, i), 0);
      names := names + [name];
    }
  }
}
