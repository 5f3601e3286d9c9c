/**
 Clearing, reading and writing a file through its `DiskInode` (easy-fs/src/layout.rs).
 `o` lists the blocks the file owns; `f` is the file as a byte sequence.
 */
module DiskInodeData {
  import opened Basics
  import opened Bytes
  import opened BlockCache
  import opened InodeIndex
  import opened SpareSlots
  import opened FileContent
  import opened DiskInodeOps

  /** `v` is what listing the owned blocks has produced so far. */
  ghost predicate ListedSoFar(v: seq<nat>, o: seq<nat>) {
    |v| <= |o| && v == o[..|v|]
  }

  lemma PushListed(v: seq<nat>, o: seq<nat>, x: nat)
    requires ListedSoFar(v, o) && |v| < |o| && x == o[|v|]
    ensures ListedSoFar(v + [x], o)
  {
  }

  /** Push the first `count` entries of index block `b`, whose lock is free. */
  method PushEntries(c: BlockCacheManager, b: nat, count: nat, v0: seq<nat>, ghost o: seq<nat>)
    returns (v: seq<nat>)
    requires c.Ready() && |c.pinned| <= 2 && b < |c.view| && b !in c.pinned
    requires count <= 128 && ListedSoFar(v0, o) && |v0| + count <= |o|
    requires forall i :: 0 <= i < count ==> o[|v0| + i] == WordAt(c.view, b, i)
    modifies c
    ensures c.Ready() && c.view == old(c.view) && c.pinned == old(c.pinned) && (old(c.Synced()) ==> c.Synced())
    ensures ListedSoFar(v, o) && |v| == |v0| + count
  {
    c.Lock(b);
    var block := c.Read(b);
    assert forall i :: 0 <= i < count ==> WordAt(c.view, b, i) == Word(block, i);
    v := v0;
    var i := 0;
    while i < count
      invariant 0 <= i <= count && ListedSoFar(v, o) && |v| == |v0| + i
      modifies {}
    {
      PushListed(v, o, Word(block, i));
      v := v + [Word(block, i)];
      i := i + 1;
    }
    c.Unlock(b);
  }

  /** Push second-level block `a` and the first `count` blocks it lists; the indirect2 block is locked. */
  method PushSecond(c: BlockCacheManager, d: DiskInode, a: nat, count: nat, v0: seq<nat>, ghost o: seq<nat>, ghost locked: set<nat>)
    returns (v: seq<nat>)
    requires c.Ready() && |locked| <= 1 && c.pinned == locked + {d.indirect2}
    requires Indexes(c.view, d, o) && Private(o, |c.view|, locked)
    requires a < 128 && 0 < count <= 128 && ListedSoFar(v0, o) && |v0| == 158 + 129 * a && |v0| + 1 + count <= |o|
    modifies c
    ensures c.Ready() && c.view == old(c.view) && c.pinned == old(c.pinned) && (old(c.Synced()) ==> c.Synced())
    ensures ListedSoFar(v, o) && |v| == |v0| + 1 + count
  {
    ghost var m := 158 + 129 * a;
    SecondSlotNumber(a);
    IndexesAt(c.view, d, o, 157);
    IndexesAt(c.view, d, o, m);
    PrivateAt(o, |c.view|, locked, 157);
    PrivateAt(o, |c.view|, locked, m);
    PrivateDiffer(o, |c.view|, locked, 157, m);
    var block := c.Read(d.indirect2);
    var entry := Word(block, a);
    assert entry == o[m];
    PushListed(v0, o, entry);
    v := v0 + [entry];
    forall i | 0 <= i < count ensures o[|v| + i] == WordAt(c.view, entry, i) {
      IndexesAt(c.view, d, o, |v| + i);
      Listed2SlotNumber(a, i);
    }
    v := PushEntries(c, entry, count, v, o);
  }

  /** The inode after its `n` data blocks have been given up. */
  function Cleared(d: DiskInode, n: nat): DiskInode
    requires d.Ok()
  {
    DiskInode(0,
              seq(28, i requires 0 <= i < 28 => if i < n then 0 else d.direct[i]),
              if n > 28 then 0 else d.indirect1,
              if n > 156 then 0 else d.indirect2,
              d.isDir)
  }

  /** Giving up all data blocks leaves nothing in the inode: what was not filled was zero before. */
  lemma ClearedUnused(img: Image, d: DiskInode, n: nat)
    requires n <= MAX_BLOCKS && Spare(img, d, SlotsFor(n))
    ensures Unused(Cleared(d, n))
  {
    var s := SlotsFor(n);
    forall i | n <= i < 28 ensures d.direct[i] == 0 { SpareAt(img, d, s, i); }
    if n <= 28 { SpareAt(img, d, s, 28); }
    if n <= 156 { SpareAt(img, d, s, 157); }
  }

  method ClearDirect(d0: DiskInode, n: nat, ghost o: seq<nat>, ghost img: Image) returns (d: DiskInode, v: seq<nat>)
    requires Indexes(img, d0, o) && |o| == SlotsFor(n)
    ensures d == Cleared(d0, n).(indirect1 := d0.indirect1, indirect2 := d0.indirect2)
    ensures ListedSoFar(v, o) && |v| == Min(n, 28)
  {
    d, v := d0.(size := 0), [];
    var cur := 0;
    while cur < Min(n, 28)
      invariant 0 <= cur <= Min(n, 28) && |v| == cur && ListedSoFar(v, o)
      invariant d.Ok() && d == d0.(size := 0, direct := d.direct)
      invariant forall i :: 0 <= i < 28 ==> d.direct[i] == if i < cur then 0 else d0.direct[i]
    {
      IndexesAt(img, d0, o, cur);
      PushListed(v, o, d.direct[cur]);
      v := v + [d.direct[cur]];
      d := d.(direct := d.direct[cur := 0]);
      cur := cur + 1;
    }
    assert d.direct == Cleared(d0, n).direct;
  }

  /** The second level of a file with `n` blocks past the first level: full blocks, then the last one. */
  method ClearLevel2(c: BlockCacheManager, d: DiskInode, n: nat, v0: seq<nat>, ghost o: seq<nat>) returns (v: seq<nat>)
    requires c.Ready() && |c.pinned| <= 1
    requires Indexes(c.view, d, o) && Private(o, |c.view|, c.pinned)
    requires 0 < n <= 16384 && |o| == SlotsFor(156 + n) && ListedSoFar(v0, o) && |v0| == 158
    modifies c
    ensures c.Ready() && c.view == old(c.view) && c.pinned == old(c.pinned) && (old(c.Synced()) ==> c.Synced())
    ensures v == o
  {
    var a1, b1 := n / 128, n % 128;
    ghost var locked := c.pinned;
    IndexReady(c, d, o, 157);
    c.Lock(d.indirect2);
    v := v0;
    var a := 0;
    while a < a1
      invariant 0 <= a <= a1 && ListedSoFar(v, o) && |v| == 158 + 129 * a
      invariant c.Ready() && c.view == old(c.view) && c.pinned == locked + {d.indirect2} && (old(c.Synced()) ==> c.Synced())
    {
      v := PushSecond(c, d, a, 128, v, o, locked);
      a := a + 1;
    }
    if b1 > 0 {
      v := PushSecond(c, d, a1, b1, v, o, locked);
    }
    c.Unlock(d.indirect2);
    assert |v| == |o| && o[..|o|] == o;
  }

  /**
   Clearing a file returns exactly the blocks it owns, data and index blocks, in the order
   they were supplied, and leaves the image alone.
   */
  method ClearSize(c: BlockCacheManager, d0: DiskInode, ghost o: seq<nat>) returns (d: DiskInode, v: seq<nat>)
    requires c.Ready() && |c.pinned| <= 1 && d0.size <= MAX_SIZE
    requires Indexes(c.view, d0, o) && |o| == TotalBlocks(d0.size) && Private(o, |c.view|, c.pinned)
    modifies c
    ensures c.Ready() && c.view == old(c.view) && c.pinned == old(c.pinned) && (old(c.Synced()) ==> c.Synced())
    ensures v == o && d == Cleared(d0, DataBlocks(d0.size))
  {
    var n := DataBlocks(d0.size);
    d, v := ClearDirect(d0, n, o, c.view);
    if n <= 28 {
      assert o[..|o|] == o;
      return;
    }
    IndexReady(c, d0, o, 28);
    PushListed(v, o, d0.indirect1);
    v := v + [d.indirect1];
    forall i | 0 <= i < Min(n - 28, 128) ensures o[29 + i] == WordAt(c.view, d.indirect1, i) {
      IndexesAt(c.view, d0, o, 29 + i);
    }
    v := PushEntries(c, d.indirect1, Min(n - 28, 128), v, o);
    d := d.(indirect1 := 0);
    if n - 28 <= 128 {
      assert o[..|o|] == o;
      return;
    }
    IndexesAt(c.view, d0, o, 157);
    PushListed(v, o, d0.indirect2);
    v := v + [d.indirect2];
    v := ClearLevel2(c, d0, n - 156, v, o);
    d := d.(indirect2 := 0);
  }

  /** The first `n` data blocks hold the file `f`, padded with zeros. */
  ghost predicate Stored(img: Image, o: seq<nat>, f: seq<byte>, n: nat) {
    && n <= MAX_BLOCKS && SlotsFor(n) <= |o|
    && forall i :: 0 <= i < n ==> StoredAt(img, o, f, i)
  }

  ghost predicate StoredAt(img: Image, o: seq<nat>, f: seq<byte>, i: nat) {
    i < MAX_BLOCKS && DataSlot(i) < |o| && o[DataSlot(i)] < |img| && img[o[DataSlot(i)]] == BlockOf(f, i)
  }

  /** Reading delivers exactly the part of the requested range that lies inside the file. */
  method ReadAt(c: BlockCacheManager, d: DiskInode, offset: nat, len: nat, ghost o: seq<nat>, ghost f: seq<byte>)
    returns (data: seq<byte>)
    requires c.Ready() && |c.pinned| <= 1
    requires Indexes(c.view, d, o) && Private(o, |c.view|, c.pinned)
    requires |f| == d.size && Stored(c.view, o, f, DataBlocks(d.size))
    modifies c
    ensures c.Ready() && c.view == old(c.view) && c.pinned == old(c.pinned) && (old(c.Synced()) ==> c.Synced())
    ensures |data| == (if offset >= |f| then 0 else Min(len, |f| - offset)) && data == Slice(f, offset, len)
    ensures forall k :: 0 <= k < |data| ==> data[k] == f[offset + k]
  {
    data := [];
    var start, end := offset, Min(offset + len, d.size);
    if start >= end {
      return;
    }
    var block := start / 512;
    while true
      invariant offset <= start < end <= |f| && block == start / 512
      invariant data == f[offset..start]
      invariant c.Ready() && c.view == old(c.view) && c.pinned == old(c.pinned) && (old(c.Synced()) ==> c.Synced())
      decreases end - start
    {
      var stop := Min((start / 512 + 1) * 512, end);
      var piece := ReadPiece(c, d, block, start, stop - start, o, f);
      data := data + piece;
      assert data == f[offset..stop];
      if stop == end {
        break;
      }
      block := block + 1;
      start := stop;
    }
  }

  method ReadPiece(c: BlockCacheManager, d: DiskInode, block: nat, start: nat, n: nat, ghost o: seq<nat>, ghost f: seq<byte>)
    returns (piece: seq<byte>)
    requires c.Ready() && |c.pinned| <= 1
    requires Indexes(c.view, d, o) && Private(o, |c.view|, c.pinned)
    requires Stored(c.view, o, f, DataBlocks(|f|))
    requires block == start / 512 && start % 512 + n <= 512 && 0 < n && start + n <= |f|
    modifies c
    ensures c.Ready() && c.view == old(c.view) && c.pinned == old(c.pinned) && (old(c.Synced()) ==> c.Synced())
    ensures piece == f[start..start + n]
  {
    assert StoredAt(c.view, o, f, block);
    var id := GetBlockId(c, d, block, o);
    PrivateAt(o, |c.view|, c.pinned, DataSlot(block));
    c.Lock(id);
    var bytes := c.Read(id);
    c.Unlock(id);
    piece := bytes[start % 512..start % 512 + n];
    BlockPiece(f, start, n);
  }

  /** The images differ at most on data blocks among the first `n`. */
  ghost predicate OnlyDataChanged(img: Image, img': Image, o: seq<nat>, n: nat) {
    && |img'| == |img|
    && forall b :: 0 <= b < |img| && img'[b] != img[b] ==> exists i :: DataBlockAt(o, n, b, i)
  }

  ghost predicate DataBlockAt(o: seq<nat>, n: nat, b: nat, i: nat) {
    i < n && i < MAX_BLOCKS && DataSlot(i) < |o| && o[DataSlot(i)] == b
  }

  lemma SpareAfterData(img: Image, img': Image, d: DiskInode, o: seq<nat>, n: nat, locked: set<nat>)
    requires Indexes(img, d, o) && Private(o, |img|, locked) && Spare(img, d, |o|) && OnlyDataChanged(img, img', o, n)
    ensures Spare(img', d, |o|)
  {
    forall k | 0 <= k < |o| && SlotOf(k).IsIndex() && o[k] < |img| ensures img'[o[k]] == img[o[k]] {
      forall i: nat ensures !DataBlockAt(o, n, o[k], i) {
        if DataBlockAt(o, n, o[k], i) {
          PrivateDiffer(o, |img|, locked, k, DataSlot(i));
        }
      }
    }
    SpareKept(img, img', d, o, locked);
  }

  /** `n` blocks are stored, and looking up the next one gives block 0, the super block. */
  ghost predicate PastLast(img: Image, d: DiskInode, o: seq<nat>, n: nat, locked: set<nat>) {
    n < MAX_BLOCKS && !Stuck(n) && |o| == SlotsFor(n) && Spare(img, d, |o|) && |img| > 0 && 0 !in locked
  }

  lemma PastLastLookup(img: Image, d: DiskInode, o: seq<nat>, n: nat, locked: set<nat>)
    requires PastLast(img, d, o, n, locked)
    ensures Anchor(DataSlot(n)) <= |o| <= DataSlot(n) && BlockId(img, d, n) == 0
  {
    AnchorOfNext(n);
    SpareAt(img, d, |o|, DataSlot(n));
  }

  /**
   Writing stores `buf` in its range and nothing else: the file becomes `Overwrite` of what it was.
   `f` may be shorter than the inode's size, the rest of the file then being zero.
   The last two preconditions are the source's assertion and that the first block looked up is there:
   one of the file, or the super block, of which nothing is then overwritten.
   */
  method WriteAt(c: BlockCacheManager, d: DiskInode, offset: nat, buf: seq<byte>, ghost o: seq<nat>, ghost f: seq<byte>)
    returns (n: nat)
    requires c.Ready() && |c.pinned| <= 1
    requires Indexes(c.view, d, o) && Private(o, |c.view|, c.pinned)
    requires |f| <= d.size && Stored(c.view, o, f, DataBlocks(d.size))
    requires offset <= d.size
    requires offset / 512 < DataBlocks(d.size) || PastLast(c.view, d, o, offset / 512, c.pinned)
    modifies c
    ensures c.Ready() && c.pinned == old(c.pinned)
    ensures n == Min(offset + |buf|, d.size) - offset
    ensures Indexes(c.view, d, o) && OnlyDataChanged(old(c.view), c.view, o, DataBlocks(d.size))
    ensures Stored(c.view, o, Overwrite(f, offset, buf[..n]), DataBlocks(d.size))
  {
    var start, end := offset, Min(offset + |buf|, d.size);
    var block := start / 512;
    n := 0;
    OverwriteNothing(c.view, o, f, offset, buf, DataBlocks(d.size));
    while true
      invariant offset <= start <= end && start == offset + n && block == start / 512
      invariant block < DataBlocks(d.size) || (start == end && PastLast(c.view, d, o, block, c.pinned))
      invariant c.Ready() && c.pinned == old(c.pinned) && |c.view| == old(|c.view|)
      invariant Indexes(c.view, d, o) && OnlyDataChanged(old(c.view), c.view, o, DataBlocks(d.size))
      invariant Stored(c.view, o, Overwrite(f, offset, buf[..n]), DataBlocks(d.size))
      decreases end - start
    {
      var stop := Min((start / 512 + 1) * 512, end);
      ghost var before := c.view;
      ghost var b := WritePiece(c, d, block, offset, buf, n, stop - start, o, f);
      if block < DataBlocks(d.size) {
        OnlyDataStep(old(c.view), before, o, DataBlocks(d.size), block, b);
      }
      n := n + (stop - start);
      if stop == end {
        break;
      }
      block := block + 1;
      start := stop;
    }
  }

  lemma OverwriteNothing(img: Image, o: seq<nat>, f: seq<byte>, offset: nat, buf: seq<byte>, n: nat)
    requires Stored(img, o, f, n)
    ensures Stored(img, o, Overwrite(f, offset, buf[..0]), n)
  {
    forall i | 0 <= i < n ensures StoredAt(img, o, Overwrite(f, offset, buf[..0]), i) {
      assert StoredAt(img, o, f, i);
      assert BlockOf(Overwrite(f, offset, buf[..0]), i) == BlockOf(f, i);
    }
  }

  /** Copy bytes `done..done + more` of `buf` into data block `block`. */
  method WritePiece(c: BlockCacheManager, d: DiskInode, block: nat, offset: nat, buf: seq<byte>, done: nat, more: nat,
                    ghost o: seq<nat>, ghost f: seq<byte>)
    returns (ghost b: Block)
    requires c.Ready() && |c.pinned| <= 1
    requires Indexes(c.view, d, o) && Private(o, |c.view|, c.pinned)
    requires done + more <= |buf| && block == (offset + done) / 512 && (offset + done) % 512 + more <= 512
    requires block < DataBlocks(d.size) || (more == 0 && PastLast(c.view, d, o, block, c.pinned))
    requires Stored(c.view, o, Overwrite(f, offset, buf[..done]), DataBlocks(d.size))
    modifies c
    ensures c.Ready() && c.pinned == old(c.pinned) && |c.view| == old(|c.view|)
    ensures Indexes(c.view, d, o)
    ensures Stored(c.view, o, Overwrite(f, offset, buf[..done + more]), DataBlocks(d.size))
    ensures block >= DataBlocks(d.size) ==> c.view == old(c.view)
    ensures block < DataBlocks(d.size) ==>
              && DataSlot(block) < |o| && o[DataSlot(block)] < |c.view|
              && c.view == old(c.view)[o[DataSlot(block)] := b]
  {
    if block < DataBlocks(d.size) {
      assert StoredAt(c.view, o, Overwrite(f, offset, buf[..done]), block);
      PrivateAt(o, |c.view|, c.pinned, DataSlot(block));
    } else {
      PastLastLookup(c.view, d, o, block, c.pinned);
    }
    var id := GetBlockId(c, d, block, o);
    c.Lock(id);
    var bytes := c.Read(id);
    bytes := Splice(bytes, (offset + done) % 512, buf[done..done + more]);
    b := bytes;
    if block < DataBlocks(d.size) {
      IndexesAfterDataWrite(c.view, d, o, old(c.pinned), DataSlot(block), bytes);
      StoredAfterPiece(c.view, o, f, offset, buf, done, more, DataBlocks(d.size), old(c.pinned));
    } else {
      assert bytes == c.view[0] && c.view[0 := bytes] == c.view;
    }
    c.Write(id, bytes);
    c.Unlock(id);
  }

  lemma StoredAfterPiece(img: Image, o: seq<nat>, f: seq<byte>, offset: nat, buf: seq<byte>, done: nat, more: nat,
                         n: nat, locked: set<nat>)
    requires done + more <= |buf| && (offset + done) / 512 < n && (offset + done) % 512 + more <= 512
    requires Stored(img, o, Overwrite(f, offset, buf[..done]), n) && Private(o, |img|, locked)
    ensures var block := (offset + done) / 512;
            && StoredAt(img, o, Overwrite(f, offset, buf[..done]), block)
            && var b := Splice(img[o[DataSlot(block)]], (offset + done) % 512, buf[done..done + more]);
            && Stored(img[o[DataSlot(block)] := b], o, Overwrite(f, offset, buf[..done + more]), n)
  {
    var block := (offset + done) / 512;
    assert StoredAt(img, o, Overwrite(f, offset, buf[..done]), block);
    var k := DataSlot(block);
    var b := Splice(img[o[k]], (offset + done) % 512, buf[done..done + more]);
    var img', f' := img[o[k] := b], Overwrite(f, offset, buf[..done + more]);
    forall i | 0 <= i < n ensures StoredAt(img', o, f', i) {
      assert StoredAt(img, o, Overwrite(f, offset, buf[..done]), i);
      if i == block {
        SpliceExtends(f, offset, buf, done, more, i);
      } else {
        SpliceElsewhere(f, offset, buf, done, more, i);
        if i < block { DataSlotInjective(i, block); } else { DataSlotInjective(block, i); }
        PrivateDiffer(o, |img|, locked, DataSlot(i), k);
      }
    }
  }

  lemma OnlyDataStep(img: Image, img1: Image, o: seq<nat>, n: nat, block: nat, b: Block)
    requires OnlyDataChanged(img, img1, o, n) && block < n <= MAX_BLOCKS && DataSlot(block) < |o| && o[DataSlot(block)] < |img|
    ensures OnlyDataChanged(img, img1[o[DataSlot(block)] := b], o, n)
  {
    assert DataBlockAt(o, n, o[DataSlot(block)], block);
  }
}
