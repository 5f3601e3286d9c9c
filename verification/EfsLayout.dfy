/**
 The on-disk layout (easy-fs/src/efs.rs and layout.rs): the five areas and how `create` plans them,
 the super block, and where in the inode area an inode is stored.
 */
module EfsLayout {
  import opened Bytes
  import opened InodeIndex

  const EFS_MAGIC: u32 := 0x3b800001

  /** Block 0 is the super block; then follow inode bitmap, inode area, data bitmap and data area. */
  datatype Layout = Layout(total: nat, inodeBitmapBlocks: nat, inodeAreaBlocks: nat, dataBitmapBlocks: nat, dataAreaBlocks: nat)
  {
    function InodeArea(): nat { 1 + inodeBitmapBlocks }
    function DataBitmap(): nat { 1 + inodeBitmapBlocks + inodeAreaBlocks }
    function DataArea(): nat { 1 + inodeBitmapBlocks + inodeAreaBlocks + dataBitmapBlocks }
    function Inodes(): nat { 4096 * inodeBitmapBlocks }

    /** The areas fill the device, the inode area has room for every inode and every data block has a bit. */
    predicate Ok() {
      && 0 < inodeBitmapBlocks && inodeAreaBlocks == 1024 * inodeBitmapBlocks
      && DataArea() + dataAreaBlocks == total < 0x1_0000_0000
      && dataAreaBlocks <= 4096 * dataBitmapBlocks
    }
  }

  /** The areas chosen when a file system is created. */
  function Plan(total: nat, inodeBitmapBlocks: nat): Layout
    requires 1 + inodeBitmapBlocks + 1024 * inodeBitmapBlocks <= total
  {
    var inodeNum := inodeBitmapBlocks * 4096;
    var inodeAreaBlocks := (inodeNum * 128 + 511) / 512;
    var dataTotal := total - 1 - (inodeBitmapBlocks + inodeAreaBlocks);
    var dataBitmapBlocks := (dataTotal + 4096) / 4097;
    Layout(total, inodeBitmapBlocks, inodeAreaBlocks, dataBitmapBlocks, dataTotal - dataBitmapBlocks)
  }

  /** The chosen areas partition the device, and no smaller data bitmap would cover what it leaves. */
  lemma PlanOk(total: nat, inodeBitmapBlocks: nat, fewer: nat)
    requires 0 < inodeBitmapBlocks && 1 + 1025 * inodeBitmapBlocks <= total < 0x1_0000_0000
    ensures var l := Plan(total, inodeBitmapBlocks);
            && l.Ok() && l.total == total && l.inodeBitmapBlocks == inodeBitmapBlocks && l.Inodes() == 4 * l.inodeAreaBlocks
            && (fewer < l.dataBitmapBlocks ==> l.dataBitmapBlocks + l.dataAreaBlocks - fewer > 4096 * fewer)
  {
  }

  /** Block and position inside the block of inode `i`: four inodes to a block. */
  function InodeBlock(l: Layout, i: nat): nat {
    l.InodeArea() + i / 4
  }

  lemma InodePositions(l: Layout, i: nat, j: nat)
    requires l.Ok() && i < l.Inodes() && j < l.Inodes()
    ensures l.InodeArea() <= InodeBlock(l, i) < l.DataBitmap()
    ensures i != j ==> InodeBlock(l, i) != InodeBlock(l, j) || i % 4 != j % 4
  {
  }

  function InodeWord(d: DiskInode, w: nat): u32
    requires d.Ok() && w < 31
  {
    if w == 0 then d.size else if w < 29 then d.direct[w - 1] else if w == 29 then d.indirect1 else d.indirect2
  }

  /** The inode at position `j` of a block: 31 words and the byte that tells directories from files. */
  function InodeAt(b: Block, j: nat): (d: DiskInode)
    requires j < 4
    ensures d.Ok()
  {
    DiskInode(Word(b, 32 * j), seq<u32>(28, i requires 0 <= i < 28 => Word(b, 32 * j + (i + 1))),
              Word(b, 32 * j + 29), Word(b, 32 * j + 30), b[128 * j + 124] == 1)
  }

  function InodeByte(b: Block, j: nat, d: DiskInode, x: nat): byte
    requires j < 4 && d.Ok() && x < 512
  {
    if 128 * j <= x < 128 * j + 124 then ByteOf(InodeWord(d, (x - 128 * j) / 4), (x - 128 * j) % 4)
    else if x == 128 * j + 124 then (if d.isDir then 1 else 0)
    else b[x]
  }

  function PutInode(b: Block, j: nat, d: DiskInode): Block
    requires j < 4 && d.Ok()
  {
    seq(512, x requires 0 <= x < 512 => InodeByte(b, j, d, x))
  }

  lemma PutInodeWord(b: Block, j: nat, d: DiskInode, j': nat, w: nat)
    requires j < 4 && j' < 4 && d.Ok() && w < 31
    ensures Word(PutInode(b, j, d), 32 * j' + w) == if j == j' then InodeWord(d, w) else Word(b, 32 * j' + w)
  {
    var r := PutInode(b, j, d);
    var p := 4 * (32 * j' + w);
    if j == j' {
      JoinByteOf(InodeWord(d, w));
      assert p == 128 * j + 4 * w;
      PutInodeByte(b, j, d, w, 0);
      PutInodeByte(b, j, d, w, 1);
      PutInodeByte(b, j, d, w, 2);
      PutInodeByte(b, j, d, w, 3);
    } else {
      PutInodeElsewhere(b, j, d, p);
      PutInodeElsewhere(b, j, d, p + 1);
      PutInodeElsewhere(b, j, d, p + 2);
      PutInodeElsewhere(b, j, d, p + 3);
    }
  }

  lemma PutInodeByte(b: Block, j: nat, d: DiskInode, w: nat, r: nat)
    requires j < 4 && d.Ok() && w < 31 && r < 4
    ensures PutInode(b, j, d)[128 * j + 4 * w + r] == ByteOf(InodeWord(d, w), r)
  {
    assert (4 * w + r) / 4 == w && (4 * w + r) % 4 == r;
  }

  lemma PutInodeElsewhere(b: Block, j: nat, d: DiskInode, x: nat)
    requires j < 4 && d.Ok() && x < 512 && !(128 * j <= x < 128 * j + 128)
    ensures PutInode(b, j, d)[x] == b[x]
  {
  }

  lemma InodeAtWord(b: Block, j: nat, w: nat)
    requires j < 4 && w < 31
    ensures InodeWord(InodeAt(b, j), w) == Word(b, 32 * j + w)
  {
  }

  lemma SameWords(d: DiskInode, e: DiskInode)
    requires d.Ok() && e.Ok() && d.isDir == e.isDir && forall w :: 0 <= w < 31 ==> InodeWord(d, w) == InodeWord(e, w)
    ensures d == e
  {
    assert InodeWord(e, 29) == e.indirect1 && InodeWord(e, 30) == e.indirect2 && InodeWord(e, 0) == e.size;
    assert forall i :: 0 <= i < 28 ==> InodeWord(d, i + 1) == d.direct[i] && InodeWord(e, i + 1) == e.direct[i];
    assert d.direct == e.direct;
  }

  /** Storing an inode and loading it again; the other inodes of the block stay as they were. */
  lemma InodeAtPut(b: Block, j: nat, d: DiskInode, j': nat)
    requires j < 4 && j' < 4 && d.Ok()
    ensures InodeAt(PutInode(b, j, d), j') == if j == j' then d else InodeAt(b, j')
  {
    var e := InodeAt(PutInode(b, j, d), j');
    var e' := if j == j' then d else InodeAt(b, j');
    forall w | 0 <= w < 31 ensures InodeWord(e, w) == InodeWord(e', w) {
      PutInodeWord(b, j, d, j', w);
      InodeAtWord(PutInode(b, j, d), j', w);
      InodeAtWord(b, j', w);
    }
    SameWords(e, e');
  }

  function InodeIn(img: Image, l: Layout, i: nat): (d: DiskInode)
    ensures d.Ok()
  {
    if InodeBlock(l, i) < |img| then InodeAt(img[InodeBlock(l, i)], i % 4) else InodeAt(ZeroBlock(), 0)
  }

  /** Block 0 holds the magic number and the sizes of the areas. */
  predicate SuperBlockIs(b: Block, l: Layout) {
    && Word(b, 0) == EFS_MAGIC && Word(b, 1) == l.total && Word(b, 2) == l.inodeBitmapBlocks
    && Word(b, 3) == l.inodeAreaBlocks && Word(b, 4) == l.dataBitmapBlocks && Word(b, 5) == l.dataAreaBlocks
  }
}
