/**
 The invariant of the file system: an image holds a list of files, one per inode in order.

 `owned[i]` lists the blocks of inode `i` in supply order and `files[i]` is its contents.
 */
module EfsState {
  import opened Basics
  import opened Bytes
  import opened InodeIndex
  import opened SpareSlots
  import opened FileContent
  import opened DiskInodeData
  import opened Bitmap
  import opened EfsLayout

  ghost function Used(owned: seq<seq<nat>>): set<nat> {
    set i, k | 0 <= i < |owned| && 0 <= k < |owned[i]| :: owned[i][k]
  }

  ghost function Listed(vs: seq<nat>): set<nat> {
    set k | 0 <= k < |vs| :: vs[k]
  }

  ghost predicate SeparateOpened(k: int) { true }

  /** No block is owned twice, by one inode or by two, and all of them lie in the data area. */
  ghost predicate Separate(owned: seq<seq<nat>>, l: Layout) {
    forall o :: SeparateOpened(o) ==>
      && (forall i, k :: 0 <= i < |owned| && 0 <= k < |owned[i]| ==> l.DataArea() <= owned[i][k] < l.total)
      && (forall i, k, j, m ::
            0 <= i < |owned| && 0 <= k < |owned[i]| && 0 <= j < |owned| && 0 <= m < |owned[j]| && owned[i][k] == owned[j][m]
            ==> i == j && k == m)
  }

  ghost predicate FreeOpened(k: int) { true }

  /** Blocks of the data area that nobody owns are zero. */
  ghost predicate FreeZero(img: Image, l: Layout, used: set<nat>) {
    forall o :: FreeOpened(o) ==> forall b :: l.DataArea() <= b < |img| && b !in used ==> img[b] == ZeroBlock()
  }

  /** Inode `i` describes a file that owns the blocks `o` and holds the bytes `f`; inode 0 is the only directory. */
  ghost predicate FileFacts(img: Image, l: Layout, i: nat, o: seq<nat>, f: seq<byte>) {
    var d := InodeIn(img, l, i);
    && d.size == |f| <= MAX_SIZE && d.isDir == (i == 0)
    && |o| == TotalBlocks(|f|) && Indexes(img, d, o) && Stored(img, o, f, DataBlocks(|f|)) && Spare(img, d, |o|)
  }

  ghost predicate FileOpened(k: int) { true }

  ghost predicate FileOk(img: Image, l: Layout, i: nat, o: seq<nat>, f: seq<byte>) {
    forall k :: FileOpened(k) ==> FileFacts(img, l, i, o, f)
  }

  /** The numbers below `n`. */
  ghost function Prefix(n: nat): (s: set<nat>)
    ensures forall i :: i in s <==> 0 <= i < n
  {
    if n == 0 then {} else Prefix(n - 1) + {n - 1}
  }

  ghost predicate FilesOpened(k: int) { true }

  ghost predicate FilesOk(img: Image, l: Layout, owned: seq<seq<nat>>, files: seq<seq<byte>>) {
    |owned| == |files| && forall o :: FilesOpened(o) ==> forall i :: 0 <= i < |files| ==> FileOk(img, l, i, owned[i], files[i])
  }

  /**
   The image holds `files`: allocated inodes are exactly `0..|files|`, the set bits of the data
   bitmap are exactly the blocks owned by some inode, none of them shared, and free blocks are zero.
   */
  ghost predicate Consistent(img: Image, l: Layout, owned: seq<seq<nat>>, files: seq<seq<byte>>) {
    && l.Ok() && |img| == l.total && SuperBlockIs(img[0], l)
    && 0 < |files| <= l.Inodes()
    && Marks(img, 1, l.inodeBitmapBlocks, 0, Prefix(|files|))
    && Marks(img, l.DataBitmap(), l.dataBitmapBlocks, l.DataArea(), Used(owned))
    && Separate(owned, l)
    && FreeZero(img, l, Used(owned))
    && FilesOk(img, l, owned, files)
  }

  lemma FileAt(img: Image, l: Layout, owned: seq<seq<nat>>, files: seq<seq<byte>>, i: nat)
    requires FilesOk(img, l, owned, files) && i < |files|
    ensures FileFacts(img, l, i, owned[i], files[i])
  {
    assert FilesOpened(0) && FileOpened(0);
  }

  lemma InUsed(owned: seq<seq<nat>>, i: nat, k: nat)
    requires i < |owned| && k < |owned[i]|
    ensures owned[i][k] in Used(owned)
  {
  }

  /** Blocks of a file are private as long as only blocks before the data area are locked. */
  lemma SeparatePrivate(owned: seq<seq<nat>>, l: Layout, i: nat, locked: set<nat>)
    requires Separate(owned, l) && i < |owned| && forall x :: x in locked ==> x < l.DataArea()
    ensures Private(owned[i], l.total, locked)
  {
    assert SeparateOpened(0);
  }

  lemma SeparateAt(owned: seq<seq<nat>>, l: Layout, i: nat, k: nat)
    requires Separate(owned, l) && i < |owned| && k < |owned[i]|
    ensures l.DataArea() <= owned[i][k] < l.total
  {
    assert SeparateOpened(0);
  }

  /** Blocks of different files are different. */
  lemma SeparateDiffer(owned: seq<seq<nat>>, l: Layout, i: nat, k: nat, j: nat, m: nat)
    requires Separate(owned, l) && i < |owned| && k < |owned[i]| && j < |owned| && m < |owned[j]| && i != j
    ensures owned[i][k] != owned[j][m]
  {
    assert SeparateOpened(0);
  }

  /** Giving file `i` distinct blocks that nobody owns keeps the files apart. */
  lemma SeparateGrow(owned: seq<seq<nat>>, l: Layout, i: nat, vs: seq<nat>)
    requires Separate(owned, l) && i < |owned| && Distinct(vs)
    requires forall k :: 0 <= k < |vs| ==> l.DataArea() <= vs[k] < l.total && vs[k] !in Used(owned)
    ensures Separate(owned[i := owned[i] + vs], l)
    ensures Used(owned[i := owned[i] + vs]) == Used(owned) + Listed(vs)
  {
    assert SeparateOpened(0);
    var owned' := owned[i := owned[i] + vs];
    forall j, m | 0 <= j < |owned| && 0 <= m < |owned[j]| ensures owned[j][m] in Used(owned) {
      InUsed(owned, j, m);
    }
    forall j, m, j', m' | 0 <= j < |owned'| && 0 <= m < |owned'[j]| && 0 <= j' < |owned'| && 0 <= m' < |owned'[j']|
      && owned'[j][m] == owned'[j'][m']
      ensures j == j' && m == m'
    {
      assert j == i && m >= |owned[i]| ==> owned'[j][m] == vs[m - |owned[i]|];
      assert j' == i && m' >= |owned[i]| ==> owned'[j'][m'] == vs[m' - |owned[i]|];
    }
    UsedGrow(owned, i, vs);
  }

  lemma UsedGrow(owned: seq<seq<nat>>, i: nat, vs: seq<nat>)
    requires i < |owned|
    ensures Used(owned[i := owned[i] + vs]) == Used(owned) + Listed(vs)
  {
    var owned' := owned[i := owned[i] + vs];
    forall x | x in Used(owned) + Listed(vs) ensures x in Used(owned') {
      if x in Used(owned) {
        var j, m :| 0 <= j < |owned| && 0 <= m < |owned[j]| && x == owned[j][m];
        assert owned'[j][m] == x;
      } else {
        var k :| 0 <= k < |vs| && vs[k] == x;
        assert owned'[i][|owned[i]| + k] == x;
      }
    }
  }

  lemma SeparateClear(owned: seq<seq<nat>>, l: Layout, i: nat)
    requires Separate(owned, l) && i < |owned|
    ensures Separate(owned[i := []], l)
    ensures Used(owned[i := []]) == Used(owned) - Listed(owned[i])
  {
    assert SeparateOpened(0);
    var owned' := owned[i := []];
    forall x | x in Used(owned) - Listed(owned[i]) ensures x in Used(owned') {
      var j, m :| 0 <= j < |owned| && 0 <= m < |owned[j]| && x == owned[j][m];
      assert j != i;
      assert owned'[j][m] == x;
    }
  }

  /** Number of blocks all files need. */
  function BlocksOf(files: seq<seq<byte>>): nat {
    if files == [] then 0 else BlocksOf(files[..|files| - 1]) + TotalBlocks(|files[|files| - 1]|)
  }

  lemma {:induction false} BlocksOfUpdate(files: seq<seq<byte>>, i: nat, f: seq<byte>)
    requires i < |files|
    ensures BlocksOf(files[i := f]) == BlocksOf(files) - TotalBlocks(|files[i]|) + TotalBlocks(|f|)
  {
    var n := |files| - 1;
    if i < n {
      BlocksOfUpdate(files[..n], i, f);
      assert files[i := f][..n] == files[..n][i := f];
    } else {
      assert files[i := f][..n] == files[..n];
    }
  }

  lemma UsedSplit(owned: seq<seq<nat>>, n: nat)
    requires |owned| == n + 1
    ensures Used(owned) == Used(owned[..n]) + Listed(owned[n])
  {
    var last := Listed(owned[n]);
    forall x | x in Used(owned[..n]) + last ensures x in Used(owned) {
      if x in last {
        var k :| 0 <= k < |owned[n]| && owned[n][k] == x;
      } else {
        var i, k :| 0 <= i < n && 0 <= k < |owned[..n][i]| && owned[..n][i][k] == x;
        assert owned[i][k] == x;
      }
    }
  }

  ghost predicate GrowthOpened(k: int) { true }

  /** If file `i` has to grow to `size`, the blocks of all files still number at most `limit`. */
  ghost predicate GrowthFits(files: seq<seq<byte>>, i: nat, size: nat, limit: nat)
    requires i < |files|
  {
    forall k :: GrowthOpened(k) ==>
      (|files[i]| <= size ==> BlocksOf(files) - TotalBlocks(|files[i]|) + TotalBlocks(size) <= limit)
  }

  /** If the files still fit after the write, so do the blocks the write asks for. */
  lemma WriteFits(files: seq<seq<byte>>, i: nat, offset: nat, buf: seq<byte>, limit: nat)
    requires i < |files| && BlocksOf(files[i := Overwrite(files[i], offset, buf)]) <= limit
    ensures GrowthFits(files, i, offset + |buf|, limit)
  {
    BlocksOfUpdate(files, i, Overwrite(files[i], offset, buf));
  }

  lemma SeparateFront(owned: seq<seq<nat>>, l: Layout, n: nat)
    requires Separate(owned, l) && |owned| == n + 1
    ensures Separate(owned[..n], l) && Distinct(owned[n])
    ensures Used(owned[..n]) !! Listed(owned[n])
  {
    assert SeparateOpened(0);
    assert forall i :: 0 <= i < n ==> owned[..n][i] == owned[i];
  }

  /** As many blocks are in use as the file sizes account for. */
  lemma {:induction false} UsedCount(owned: seq<seq<nat>>, l: Layout, files: seq<seq<byte>>)
    requires |owned| == |files| && Separate(owned, l) && forall i :: 0 <= i < |files| ==> |owned[i]| == TotalBlocks(|files[i]|)
    ensures |Used(owned)| == BlocksOf(files)
  {
    if files == [] {
      assert Used(owned) == {};
    } else {
      var n := |files| - 1;
      SeparateFront(owned, l, n);
      UsedCount(owned[..n], l, files[..n]);
      DistinctCount(owned[n]);
      UsedSplit(owned, n);
    }
  }

  lemma ListedLast(vs: seq<nat>, n: nat)
    requires |vs| == n + 1
    ensures Listed(vs) == Listed(vs[..n]) + {vs[n]}
  {
    forall x | x in Listed(vs[..n]) ensures x in Listed(vs) {
      var k :| 0 <= k < n && vs[..n][k] == x;
      assert vs[k] == x;
    }
  }

  lemma {:induction false} ListCount(vs: seq<nat>)
    ensures |Listed(vs)| <= |vs|
  {
    if vs != [] {
      var n := |vs| - 1;
      ListCount(vs[..n]);
      ListedLast(vs, n);
    }
  }

  lemma {:induction false} DistinctCount(vs: seq<nat>)
    requires Distinct(vs)
    ensures |Listed(vs)| == |vs|
  {
    if vs != [] {
      var n := |vs| - 1;
      DistinctCount(vs[..n]);
      ListedLast(vs, n);
      assert vs[n] !in Listed(vs[..n]);
    }
  }

  lemma {:induction false} IntervalCount(a: nat, n: nat, s: set<nat>)
    requires forall x :: a <= x < a + n ==> x in s
    ensures n <= |s|
  {
    if n > 0 {
      IntervalCount(a, n - 1, s - {a + n - 1});
    }
  }

  /** The blocks an update of file `i` may change: the data bitmap, the block of its inode and its own blocks. */
  ghost predicate Touches(l: Layout, i: nat, o: seq<nat>, o': seq<nat>, b: nat) {
    || l.DataBitmap() <= b < l.DataArea()
    || b == InodeBlock(l, i)
    || b in o || b in o'
  }

  ghost predicate OnlyTouched(img: Image, img': Image, l: Layout, i: nat, o: seq<nat>, o': seq<nat>) {
    |img'| == |img| && forall b :: 0 <= b < |img| && !Touches(l, i, o, o', b) ==> img'[b] == img[b]
  }

  lemma StoredElsewhere(img: Image, img': Image, o: seq<nat>, f: seq<byte>, n: nat)
    requires Stored(img, o, f, n) && |img'| == |img|
    requires forall k :: 0 <= k < |o| && o[k] < |img| ==> img'[o[k]] == img[o[k]]
    ensures Stored(img', o, f, n)
  {
    forall i | 0 <= i < n ensures StoredAt(img', o, f, i) {
      assert StoredAt(img, o, f, i);
    }
  }

  /** A file none of whose blocks change, and whose inode does not change either, is still there. */
  lemma FileOkFrame(img: Image, img': Image, l: Layout, j: nat, o: seq<nat>, f: seq<byte>)
    requires FileFacts(img, l, j, o, f) && |img'| == |img| && Private(o, |img|, {})
    requires InodeIn(img', l, j) == InodeIn(img, l, j)
    requires forall k :: 0 <= k < |o| && o[k] < |img| ==> img'[o[k]] == img[o[k]]
    ensures FileOk(img', l, j, o, f)
  {
    IndexesElsewhere(img, img', InodeIn(img, l, j), o, {});
    SpareKept(img, img', InodeIn(img, l, j), o, {});
    StoredElsewhere(img, img', o, f, DataBlocks(|f|));
  }

  lemma OtherInodes(img: Image, img': Image, l: Layout, i: nat, d: DiskInode, o: seq<nat>, o': seq<nat>, j: nat)
    requires l.Ok() && |img| == l.total && i < l.Inodes() && j < l.Inodes() && i != j && d.Ok()
    requires InodeBlock(l, i) < |img| && OnlyTouched(img, img', l, i, o, o')
    requires img'[InodeBlock(l, i)] == PutInode(img[InodeBlock(l, i)], i % 4, d)
    requires forall x :: x in o || x in o' ==> l.DataArea() <= x
    ensures InodeIn(img', l, j) == InodeIn(img, l, j)
  {
    InodePositions(l, i, j);
    InodePositions(l, j, i);
    if InodeBlock(l, i) == InodeBlock(l, j) {
      InodeAtPut(img[InodeBlock(l, i)], i % 4, d, j % 4);
    } else {
      assert !Touches(l, i, o, o', InodeBlock(l, j));
    }
  }

  lemma OtherFiles(img: Image, img': Image, l: Layout, owned: seq<seq<nat>>, files: seq<seq<byte>>, i: nat,
                   o': seq<nat>, d: DiskInode, j: nat)
    requires Consistent(img, l, owned, files) && i < |files| && j < |files| && i != j && d.Ok()
    requires Separate(owned[i := o'], l) && OnlyTouched(img, img', l, i, owned[i], o')
    requires InodeBlock(l, i) < |img| && img'[InodeBlock(l, i)] == PutInode(img[InodeBlock(l, i)], i % 4, d)
    ensures FileOk(img', l, j, owned[j], files[j])
  {
    FileAt(img, l, owned, files, j);
    SeparatePrivate(owned, l, j, {});
    var o, owned' := owned[i], owned[i := o'];
    forall x | x in o || x in o' ensures l.DataArea() <= x {
      if x in o {
        var k :| 0 <= k < |o| && o[k] == x;
        SeparateAt(owned, l, i, k);
      } else {
        var k :| 0 <= k < |o'| && o'[k] == x;
        SeparateAt(owned', l, i, k);
      }
    }
    OtherInodes(img, img', l, i, d, o, o', j);
    InodePositions(l, i, j);
    forall k | 0 <= k < |owned[j]| && owned[j][k] < |img| ensures img'[owned[j][k]] == img[owned[j][k]] {
      SeparateAt(owned, l, j, k);
      NotOwnedElsewhere(owned, l, j, k, i);
      assert owned'[j] == owned[j];
      NotOwnedElsewhere(owned', l, j, k, i);
      assert !Touches(l, i, o, o', owned[j][k]);
    }
    FileOkFrame(img, img', l, j, owned[j], files[j]);
  }

  lemma NotOwnedElsewhere(owned: seq<seq<nat>>, l: Layout, j: nat, k: nat, i: nat)
    requires Separate(owned, l) && i < |owned| && j < |owned| && i != j && k < |owned[j]|
    ensures owned[j][k] !in owned[i]
  {
    forall m | 0 <= m < |owned[i]| ensures owned[i][m] != owned[j][k] {
      SeparateDiffer(owned, l, j, k, i, m);
    }
  }

  /**
   An update of file `i` that stays within its blocks, its inode and the data bitmap keeps the
   image consistent and every other file as it was.
   */
  lemma ConsistentUpdate(img: Image, img': Image, l: Layout, owned: seq<seq<nat>>, files: seq<seq<byte>>, i: nat,
                         o': seq<nat>, f': seq<byte>, d: DiskInode)
    requires Consistent(img, l, owned, files) && i < |files| && d.Ok()
    requires Separate(owned[i := o'], l) && OnlyTouched(img, img', l, i, owned[i], o')
    requires InodeBlock(l, i) < |img| && img'[InodeBlock(l, i)] == PutInode(img[InodeBlock(l, i)], i % 4, d)
    requires Marks(img', l.DataBitmap(), l.dataBitmapBlocks, l.DataArea(), Used(owned[i := o']))
    requires d.size == |f'| <= MAX_SIZE && d.isDir == (i == 0) && |o'| == TotalBlocks(|f'|)
    requires Indexes(img', d, o') && Stored(img', o', f', DataBlocks(|f'|)) && Spare(img', d, |o'|)
    requires FreeZero(img', l, Used(owned[i := o']))
    ensures Consistent(img', l, owned[i := o'], files[i := f'])
  {
    InodePositions(l, i, i);
    FilesAfterUpdate(img, img', l, owned, files, i, o', f', d);
    UntouchedFront(img, img', l, owned, i, o');
    MarksFrame(img, img', 1, l.inodeBitmapBlocks, 0, Prefix(|files|));
  }

  lemma UntouchedFront(img: Image, img': Image, l: Layout, owned: seq<seq<nat>>, i: nat, o': seq<nat>)
    requires l.Ok() && |img| == l.total && i < |owned| && i < l.Inodes()
    requires Separate(owned, l) && Separate(owned[i := o'], l) && OnlyTouched(img, img', l, i, owned[i], o')
    ensures forall b :: 0 <= b < l.InodeArea() ==> img'[b] == img[b]
  {
    InodePositions(l, i, i);
    forall b | 0 <= b < l.InodeArea() ensures img'[b] == img[b] {
      if b in owned[i] {
        var k :| 0 <= k < |owned[i]| && owned[i][k] == b;
        SeparateAt(owned, l, i, k);
      }
      if b in o' {
        var k :| 0 <= k < |o'| && o'[k] == b;
        SeparateAt(owned[i := o'], l, i, k);
      }
      assert !Touches(l, i, owned[i], o', b);
    }
  }

  lemma FilesAfterUpdate(img: Image, img': Image, l: Layout, owned: seq<seq<nat>>, files: seq<seq<byte>>, i: nat,
                         o': seq<nat>, f': seq<byte>, d: DiskInode)
    requires Consistent(img, l, owned, files) && i < |files| && d.Ok()
    requires Separate(owned[i := o'], l) && OnlyTouched(img, img', l, i, owned[i], o')
    requires InodeBlock(l, i) < |img| && img'[InodeBlock(l, i)] == PutInode(img[InodeBlock(l, i)], i % 4, d)
    requires d.size == |f'| <= MAX_SIZE && d.isDir == (i == 0) && |o'| == TotalBlocks(|f'|)
    requires Indexes(img', d, o') && Stored(img', o', f', DataBlocks(|f'|)) && Spare(img', d, |o'|)
    ensures FilesOk(img', l, owned[i := o'], files[i := f'])
  {
    var owned', files' := owned[i := o'], files[i := f'];
    forall j | 0 <= j < |files'| ensures FileOk(img', l, j, owned'[j], files'[j]) {
      if j == i {
        OwnFile(img', l, i, o', f', d, img[InodeBlock(l, i)]);
      } else {
        OtherFiles(img, img', l, owned, files, i, o', d, j);
      }
    }
    FilesOkFrom(img', l, owned', files');
  }

  lemma OwnFile(img: Image, l: Layout, i: nat, o: seq<nat>, f: seq<byte>, d: DiskInode, b: Block)
    requires InodeBlock(l, i) < |img| && d.Ok() && img[InodeBlock(l, i)] == PutInode(b, i % 4, d)
    requires d.size == |f| <= MAX_SIZE && d.isDir == (i == 0) && |o| == TotalBlocks(|f|)
    requires Indexes(img, d, o) && Stored(img, o, f, DataBlocks(|f|)) && Spare(img, d, |o|)
    ensures FileOk(img, l, i, o, f)
  {
    InodeAtPut(b, i % 4, d, i % 4);
  }

  lemma FilesOkFrom(img: Image, l: Layout, owned: seq<seq<nat>>, files: seq<seq<byte>>)
    requires |owned| == |files| && forall j :: 0 <= j < |files| ==> FileOk(img, l, j, owned[j], files[j])
    ensures FilesOk(img, l, owned, files)
  {
  }

  ghost predicate IntactOpened(k: int) { true }

  /** The same invariant, as the operations see it. */
  ghost predicate Intact(img: Image, l: Layout, owned: seq<seq<nat>>, files: seq<seq<byte>>) {
    |owned| == |files| && forall k :: IntactOpened(k) ==> Consistent(img, l, owned, files)
  }

  /** What an operation on file `i` needs to know to lock and read its inode. */
  lemma InodeOnDevice(img: Image, l: Layout, owned: seq<seq<nat>>, files: seq<seq<byte>>, i: nat)
    requires Intact(img, l, owned, files) && i < |files|
    ensures l.Ok() && InodeBlock(l, i) < |img| && InodeBlock(l, i) < l.DataBitmap() && i < l.Inodes()
    ensures var d := InodeIn(img, l, i); d.size == |files[i]| <= MAX_SIZE && d.isDir == (i == 0)
  {
    assert IntactOpened(0);
    InodePositions(l, i, i);
    FileAt(img, l, owned, files, i);
  }

  lemma FileReadable(img: Image, l: Layout, owned: seq<seq<nat>>, files: seq<seq<byte>>, i: nat)
    requires Intact(img, l, owned, files) && i < |files|
    ensures var d := InodeIn(img, l, i);
            && d.size == |files[i]| <= MAX_SIZE && |owned[i]| == TotalBlocks(d.size)
            && Indexes(img, d, owned[i]) && Stored(img, owned[i], files[i], DataBlocks(d.size)) && Spare(img, d, |owned[i]|)
    ensures Private(owned[i], |img|, {InodeBlock(l, i)})
  {
    assert IntactOpened(0);
    InodePositions(l, i, i);
    FileAt(img, l, owned, files, i);
    SeparatePrivate(owned, l, i, {InodeBlock(l, i)});
  }

  /** Marking and initialising one more inode adds one more file, which is empty. */
  lemma IntactAppend(img: Image, img1: Image, img2: Image, l: Layout, owned: seq<seq<nat>>, files: seq<seq<byte>>, d: DiskInode)
    requires Intact(img, l, owned, files) && |files| < l.Inodes() && |img1| == |img|
    requires Marks(img1, 1, l.inodeBitmapBlocks, 0, Prefix(|files| + 1))
    requires forall b :: 0 <= b < |img| && !(1 <= b < l.InodeArea()) ==> img1[b] == img[b]
    requires Unused(d) && !d.isDir && InodeBlock(l, |files|) < |img|
    requires img2 == img1[InodeBlock(l, |files|) := PutInode(img1[InodeBlock(l, |files|)], |files| % 4, d)]
    ensures Intact(img2, l, owned + [[]], files + [[]])
  {
    assert IntactOpened(0);
    UsedAppend(owned, l);
    AppendIsLocal(img, img1, img2, l, |files|, d);
    AppendKeepsBitmaps(img, img1, img2, l, owned, |files|);
    FreeZeroSame(img, img2, l, Used(owned));
    FilesAfterAppend(img, img2, l, owned, files, d);
  }

  lemma FreeZeroSame(img: Image, img': Image, l: Layout, used: set<nat>)
    requires FreeZero(img, l, used) && |img'| == |img| && forall b :: l.DataArea() <= b < |img| ==> img'[b] == img[b]
    ensures FreeZero(img', l, used)
  {
    assert FreeOpened(0);
  }

  lemma AppendIsLocal(img: Image, img1: Image, img2: Image, l: Layout, n: nat, d: DiskInode)
    requires l.Ok() && n < l.Inodes() && |img1| == |img| == l.total && InodeBlock(l, n) < |img|
    requires forall b :: 0 <= b < |img| && !(1 <= b < l.InodeArea()) ==> img1[b] == img[b]
    requires Unused(d) && !d.isDir
    requires img2 == img1[InodeBlock(l, n) := PutInode(img1[InodeBlock(l, n)], n % 4, d)]
    ensures InodeAdded(img, img2, l, n, d) && img2[0] == img[0] && forall b :: l.DataArea() <= b < |img| ==> img2[b] == img[b]
  {
    InodePositions(l, n, n);
  }

  lemma AppendKeepsBitmaps(img: Image, img1: Image, img2: Image, l: Layout, owned: seq<seq<nat>>, n: nat)
    requires l.Ok() && |img| == |img1| == |img2| && n < l.Inodes() && InodeBlock(l, n) < |img| && l.total <= |img|
    requires Marks(img1, 1, l.inodeBitmapBlocks, 0, Prefix(n + 1))
    requires Marks(img, l.DataBitmap(), l.dataBitmapBlocks, l.DataArea(), Used(owned))
    requires forall b :: 0 <= b < |img| && !(1 <= b < l.InodeArea()) ==> img1[b] == img[b]
    requires forall b :: 0 <= b < |img| && b != InodeBlock(l, n) ==> img2[b] == img1[b]
    ensures Marks(img2, 1, l.inodeBitmapBlocks, 0, Prefix(n + 1))
    ensures Marks(img2, l.DataBitmap(), l.dataBitmapBlocks, l.DataArea(), Used(owned))
  {
    InodePositions(l, n, n);
    MarksFrame(img1, img2, 1, l.inodeBitmapBlocks, 0, Prefix(n + 1));
    MarksFrame(img, img2, l.DataBitmap(), l.dataBitmapBlocks, l.DataArea(), Used(owned));
  }

  /** `img2` is `img` with inode `n` set to `d`, from the inode area on. */
  ghost predicate InodeAdded(img: Image, img2: Image, l: Layout, n: nat, d: DiskInode) {
    && Unused(d) && !d.isDir && InodeBlock(l, n) < |img2| == |img|
    && img2[InodeBlock(l, n)] == PutInode(img[InodeBlock(l, n)], n % 4, d)
    && forall b :: l.InodeArea() <= b < |img| && b != InodeBlock(l, n) ==> img2[b] == img[b]
  }

  lemma FilesAfterAppend(img: Image, img2: Image, l: Layout, owned: seq<seq<nat>>, files: seq<seq<byte>>, d: DiskInode)
    requires Intact(img, l, owned, files) && 0 < |files| < l.Inodes() && InodeAdded(img, img2, l, |files|, d)
    ensures FilesOk(img2, l, owned + [[]], files + [[]])
  {
    var owned', files' := owned + [[]], files + [[]];
    forall j | 0 <= j < |files'| ensures FileOk(img2, l, j, owned'[j], files'[j]) {
      if j < |files| {
        AppendKeepsFile(img, img2, l, owned, files, d, j);
      } else {
        EmptyFileOk(img2, l, j, d, img[InodeBlock(l, j)]);
      }
    }
    FilesOkFrom(img2, l, owned', files');
  }

  lemma EmptyFileOk(img: Image, l: Layout, n: nat, d: DiskInode, b: Block)
    requires Unused(d) && !d.isDir && 0 < n && InodeBlock(l, n) < |img|
    requires img[InodeBlock(l, n)] == PutInode(b, n % 4, d)
    ensures FileOk(img, l, n, [], [])
  {
    assert IndexesOpened(0);
    assert Owned(img, d, 0) == [];
    SpareUnused(img, d);
    OwnFile(img, l, n, [], [], d, b);
  }

  lemma AppendKeepsFile(img: Image, img2: Image, l: Layout, owned: seq<seq<nat>>, files: seq<seq<byte>>, d: DiskInode, j: nat)
    requires Intact(img, l, owned, files) && |files| < l.Inodes() && j < |files| && InodeAdded(img, img2, l, |files|, d)
    ensures FileOk(img2, l, j, owned[j], files[j])
  {
    assert IntactOpened(0);
    var n := |files|;
    FileAt(img, l, owned, files, j);
    SeparatePrivate(owned, l, j, {});
    InodePositions(l, n, j);
    InodePositions(l, j, n);
    if InodeBlock(l, n) == InodeBlock(l, j) {
      InodeAtPut(img[InodeBlock(l, n)], n % 4, d, j % 4);
    }
    forall k | 0 <= k < |owned[j]| && owned[j][k] < |img| ensures img2[owned[j][k]] == img[owned[j][k]] {
      SeparateAt(owned, l, j, k);
    }
    FileOkFrame(img, img2, l, j, owned[j], files[j]);
  }

  lemma UsedAppend(owned: seq<seq<nat>>, l: Layout)
    requires Separate(owned, l)
    ensures Separate(owned + [[]], l) && Used(owned + [[]]) == Used(owned)
  {
    assert SeparateOpened(0);
    var owned' := owned + [[]];
    forall x | x in Used(owned) ensures x in Used(owned') {
      var j, m :| 0 <= j < |owned| && 0 <= m < |owned[j]| && x == owned[j][m];
      assert owned'[j][m] == x;
    }
  }
}
