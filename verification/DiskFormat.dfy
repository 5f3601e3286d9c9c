/**
 The format of the device, read off its bytes (easy-fs/src/layout.rs, efs.rs, bitmap.rs): a reader
 that knows nothing but where the numbers are finds in a consistent image exactly the files, the
 directory and the blocks in use. It shares no definition with the code that writes them.
 */
module DiskFormat {
  import opened Bytes
  import opened Bitmap
  import opened InodeIndex
  import opened FileContent
  import opened DiskInodeData
  import opened EfsLayout
  import opened EfsState
  import opened Directory

  /** The little-endian number in the four bytes from `p` on. */
  function Number(b: seq<byte>, p: nat): nat
    requires p + 4 <= |b|
  {
    b[p] as int + 0x100 * (b[p + 1] as int + 0x100 * (b[p + 2] as int + 0x100 * (b[p + 3] as int)))
  }

  /** The block, or zeros for a number off the device. */
  function BlockAt(img: Image, b: nat): (r: Block) {
    if b < |img| then img[b] else ZeroBlock()
  }

  /** The block with inode `i`, four to a block from the end of the inode bitmap on. */
  function RawInodeBlock(img: Image, i: nat): Block {
    BlockAt(img, 1 + Number(BlockAt(img, 0), 8) + i / 4)
  }

  /** The number at byte `p` of inode `i`. */
  function InodeNumber(img: Image, i: nat, p: nat): nat
    requires p + 4 <= 128
  {
    Number(RawInodeBlock(img, i), 128 * (i % 4) + p)
  }

  /** The block of data block `k`: 28 numbers in the inode, 128 in the block it names next, then 128 blocks of 128. */
  function RawDataBlock(img: Image, i: nat, k: nat): nat
    requires k < 16540
  {
    if k < 28 then InodeNumber(img, i, 4 + 4 * k)
    else if k < 156 then Number(BlockAt(img, InodeNumber(img, i, 116)), 4 * (k - 28))
    else Number(BlockAt(img, Number(BlockAt(img, InodeNumber(img, i, 120)), 4 * ((k - 156) / 128))), 4 * ((k - 156) % 128))
  }

  function RawSize(img: Image, i: nat): nat { InodeNumber(img, i, 0) }

  /** The byte after the numbers tells directories, 1, from files, 0. */
  function RawKind(img: Image, i: nat): byte { RawInodeBlock(img, i)[128 * (i % 4) + 124] }

  function RawByte(img: Image, i: nat, p: nat): byte
    requires p / 512 < 16540
  {
    BlockAt(img, RawDataBlock(img, i, p / 512))[p % 512]
  }

  /** Bit `k` of the bitmap that starts at block `start`, the low bits of a byte first. */
  function RawBit(img: Image, start: nat, k: nat): nat {
    BlockAt(img, start + k / 4096)[k % 4096 / 8] as int / [1, 2, 4, 8, 16, 32, 64, 128][k % 8] % 2
  }

  lemma WordIsNumber(b: Block, w: nat)
    requires w < 128
    ensures Word(b, w) == Number(b, 4 * w)
  {
  }

  lemma ByteBitIs(x: nat, r: nat)
    requires r < 8
    ensures ByteBit(x, r) <==> x / [1, 2, 4, 8, 16, 32, 64, 128][r] % 2 == 1
  {
    if r < 4 {
      LowBit(x, r);
    } else {
      var y := x / 16;
      assert x / 2 / 2 / 2 / 2 == y;
      assert ByteBit(x, r) == ByteBit(x / 2, r - 1) == ByteBit(x / 2 / 2, r - 2);
      assert ByteBit(x / 2 / 2, r - 2) == ByteBit(x / 2 / 2 / 2, r - 3) == ByteBit(y, r - 4);
      LowBit(y, r - 4);
      assert y / 1 == x / 16 && y / 2 == x / 32 && y / 4 == x / 64 && y / 8 == x / 128;
    }
  }

  lemma LowBit(x: nat, r: nat)
    requires r < 4
    ensures ByteBit(x, r) <==> x / [1, 2, 4, 8][r] % 2 == 1
  {
    assert x / 2 / 2 == x / 4 && x / 4 / 2 == x / 8;
    assert ByteBit(x / 2, 0) == (x / 2 % 2 == 1) && ByteBit(x / 4, 0) == (x / 4 % 2 == 1) && ByteBit(x / 8, 0) == (x / 8 % 2 == 1);
    assert ByteBit(x / 2, 1) == ByteBit(x / 4, 0) && ByteBit(x / 4, 1) == ByteBit(x / 8, 0);
    assert r == 3 ==> ByteBit(x, 3) == ByteBit(x / 2, 2) == ByteBit(x / 4, 1);
    assert r == 2 ==> ByteBit(x, 2) == ByteBit(x / 2, 1);
  }

  // ---- Inodes

  lemma SuperBlockNumbers(img: Image, l: Layout)
    requires |img| > 0 && SuperBlockIs(img[0], l)
    ensures Number(img[0], 0) == 0x3b800001 && Number(img[0], 4) == l.total && Number(img[0], 8) == l.inodeBitmapBlocks
    ensures Number(img[0], 12) == l.inodeAreaBlocks && Number(img[0], 16) == l.dataBitmapBlocks && Number(img[0], 20) == l.dataAreaBlocks
  {
    forall w | 0 <= w < 6 ensures Word(img[0], w) == Number(img[0], 4 * w) { WordIsNumber(img[0], w); }
  }

  lemma InodeBytes(b: Block, j: nat)
    requires j < 4
    ensures var d := InodeAt(b, j);
            && d.size == Number(b, 128 * j) && d.indirect1 == Number(b, 128 * j + 116) && d.indirect2 == Number(b, 128 * j + 120)
            && (d.isDir <==> b[128 * j + 124] == 1)
    ensures forall k :: 0 <= k < 28 ==> InodeAt(b, j).direct[k] == Number(b, 128 * j + (4 + 4 * k))
  {
    WordIsNumber(b, 32 * j);
    WordIsNumber(b, 32 * j + 29);
    WordIsNumber(b, 32 * j + 30);
    forall k | 0 <= k < 28 ensures InodeAt(b, j).direct[k] == Number(b, 128 * j + (4 + 4 * k)) {
      WordIsNumber(b, 32 * j + (k + 1));
    }
  }

  /** Inode `i` of a consistent image, read off the bytes. */
  lemma InodeRead(img: Image, l: Layout, owned: seq<seq<nat>>, files: seq<seq<byte>>, i: nat)
    requires Consistent(img, l, owned, files) && i < |files|
    ensures RawInodeBlock(img, i) == img[InodeBlock(l, i)] && InodeBlock(l, i) < |img|
    ensures var d := InodeIn(img, l, i);
            && d.size == InodeNumber(img, i, 0) && d.indirect1 == InodeNumber(img, i, 116) && d.indirect2 == InodeNumber(img, i, 120)
            && (d.isDir <==> RawKind(img, i) == 1)
    ensures forall k :: 0 <= k < 28 ==> InodeIn(img, l, i).direct[k] == InodeNumber(img, i, 4 + 4 * k)
  {
    InodePositions(l, i, i);
    SuperBlockNumbers(img, l);
    InodeBytes(img[InodeBlock(l, i)], i % 4);
  }

  lemma WordAtIs(img: Image, b: nat, w: nat)
    requires w < 128
    ensures WordAt(img, b, w) == Number(BlockAt(img, b), 4 * w)
  {
    WordIsNumber(BlockAt(img, b), w);
    if b >= |img| { WordOfZero(w); }
  }

  lemma DataBlockRead(img: Image, l: Layout, owned: seq<seq<nat>>, files: seq<seq<byte>>, i: nat, k: nat)
    requires Consistent(img, l, owned, files) && i < |files| && k < 16540
    ensures RawDataBlock(img, i, k) == BlockId(img, InodeIn(img, l, i), k)
  {
    InodeRead(img, l, owned, files, i);
    DataSlotLocation(k);
    var d := InodeIn(img, l, i);
    if 28 <= k < 156 {
      WordAtIs(img, d.indirect1, k - 28);
    } else if 156 <= k {
      WordAtIs(img, d.indirect2, (k - 156) / 128);
      WordAtIs(img, WordAt(img, d.indirect2, (k - 156) / 128), (k - 156) % 128);
    }
  }

  lemma StoredByte(img: Image, o: seq<nat>, f: seq<byte>, p: nat)
    requires p < |f| && StoredAt(img, o, f, p / 512)
    ensures p / 512 < MAX_BLOCKS && DataSlot(p / 512) < |o| && BlockAt(img, o[DataSlot(p / 512)])[p % 512] == f[p]
  {
    assert 512 * (p / 512) + p % 512 == p;
  }

  lemma FileByteRead(img: Image, l: Layout, owned: seq<seq<nat>>, files: seq<seq<byte>>, i: nat, p: nat)
    requires Consistent(img, l, owned, files) && i < |files| && p < |files[i]| <= MAX_SIZE
    ensures p / 512 < 16540 && RawByte(img, i, p) == files[i][p]
  {
    var k, d, o := p / 512, InodeIn(img, l, i), owned[i];
    assert Indexes(img, d, o) && StoredAt(img, o, files[i], k) by {
      FileAt(img, l, owned, files, i);
      assert k < DataBlocks(|files[i]|);
    }
    StoredByte(img, o, files[i], p);
    IndexesAt(img, d, o, DataSlot(k));
    assert RawDataBlock(img, i, k) == o[DataSlot(k)] by { DataBlockRead(img, l, owned, files, i, k); }
  }

  lemma RawBitIs(img: Image, start: nat, k: nat)
    requires start + k / 4096 < |img|
    ensures RawBit(img, start, k) == 1 <==> BitAt(img, start, k)
  {
    assert k % 4096 % 8 == k % 8;
    ByteBitIs(img[start + k / 4096][k % 4096 / 8], k % 8);
  }

  lemma MarksRead(img: Image, start: nat, blocks: nat, base: nat, s: set<nat>, k: nat)
    requires Marks(img, start, blocks, base, s) && k < 4096 * blocks
    ensures RawBit(img, start, k) == 1 <==> base + k in s
  {
    MarksAt(img, start, blocks, base, s, k);
    assert k / 4096 < blocks;
    RawBitIs(img, start, k);
  }

  // ---- What the reader finds

  /** The size, kind and every byte of every file. */
  lemma ReadsFiles(img: Image, l: Layout, owned: seq<seq<nat>>, files: seq<seq<byte>>, i: nat, p: nat)
    requires Consistent(img, l, owned, files) && i < |files|
    ensures RawSize(img, i) == |files[i]| <= 16540 * 512 && (RawKind(img, i) == 1 <==> i == 0)
    ensures p < |files[i]| ==> RawByte(img, i, p) == files[i][p]
  {
    assert var d := InodeIn(img, l, i); d.size == |files[i]| <= MAX_SIZE && d.isDir == (i == 0) by { FileAt(img, l, owned, files, i); }
    assert RawSize(img, i) == |files[i]| && (RawKind(img, i) == 1 <==> i == 0) by { InodeRead(img, l, owned, files, i); }
    if p < |files[i]| {
      FileByteRead(img, l, owned, files, i, p);
    }
  }

  /** The inode bitmap marks the files and the data bitmap the blocks they own, counted from the start of the data area. */
  lemma ReadsBitmaps(img: Image, l: Layout, owned: seq<seq<nat>>, files: seq<seq<byte>>, k: nat)
    requires Consistent(img, l, owned, files)
    ensures k < 4096 * Number(img[0], 8) ==> (RawBit(img, 1, k) == 1 <==> k < |files|)
    ensures var start := 1 + Number(img[0], 8) + Number(img[0], 12);
            k < 4096 * Number(img[0], 16) ==> (RawBit(img, start, k) == 1 <==> start + Number(img[0], 16) + k in Used(owned))
  {
    SuperBlockNumbers(img, l);
    if k < 4096 * l.inodeBitmapBlocks {
      MarksRead(img, 1, l.inodeBitmapBlocks, 0, Prefix(|files|), k);
    }
    if k < 4096 * l.dataBitmapBlocks {
      MarksRead(img, l.DataBitmap(), l.dataBitmapBlocks, l.DataArea(), Used(owned), k);
    }
  }

  /** The 32 bytes of an entry: the name, zeros up to 28 bytes, and the number of the inode. */
  ghost predicate EntryIs(e: seq<byte>, name: Name, ino: nat) {
    && |e| == 32 && |name| <= 27
    && (forall x :: 0 <= x < 28 ==> e[x] == if x < |name| then name[x] else 0)
    && Number(e, 28) == ino
  }

  /** Entry `j` of the directory, which is inode 0. */
  ghost function RawEntry(img: Image, j: nat): (e: seq<byte>)
    requires 32 * j + 32 <= 512 * 16540
    ensures |e| == 32 && forall x :: 0 <= x < 32 ==> e[x] == RawByte(img, 0, 32 * j + x)
  {
    seq<byte>(32, x requires 0 <= x < 32 => RawByte(img, 0, 32 * j + x))
  }

  lemma DirentBytes(name: Name, ino: u32)
    requires |name| <= 27
    ensures EntryIs(Dirent(name, ino), name, ino)
  {
    JoinByteOf(ino);
  }

  lemma EntryRead(img: Image, l: Layout, owned: seq<seq<nat>>, files: seq<seq<byte>>, j: nat, e: seq<byte>)
    requires Consistent(img, l, owned, files) && 32 * j + 32 <= |files[0]| <= MAX_SIZE && e == files[0][32 * j..32 * j + 32]
    ensures RawEntry(img, j) == e
  {
    var r := RawEntry(img, j);
    forall x | 0 <= x < 32 ensures r[x] == e[x] {
      ReadsFiles(img, l, owned, files, 0, 32 * j + x);
    }
  }

  /** Entry `j` of the directory names file `j`, which is inode `j + 1`. */
  lemma ReadsDirectory(img: Image, l: Layout, owned: seq<seq<nat>>, files: seq<seq<byte>>, names: seq<Name>, j: nat)
    requires NamesOk(names) && j < |names| && Consistent(img, l, owned, files) && files[0] == DirBytes(names)
    ensures 32 * |names| <= MAX_SIZE && EntryIs(RawEntry(img, j), names[j], j + 1)
  {
    ReadsFiles(img, l, owned, files, 0, 0);
    DirentAt(names, j);
    DirentBytes(names[j], j + 1);
    EntryRead(img, l, owned, files, j, Dirent(names[j], j + 1));
  }
}
