/**
 The block index of an inode (easy-fs/src/layout.rs), as pure functions of a disk image.

 The blocks an inode owns, data and index blocks alike, are numbered in the order growth
 supplies them: slot 0..27 are the direct blocks, slot 28 the indirect1 block, 29..156 the
 blocks it lists, slot 157 the indirect2 block, and then for every second-level index block
 one slot for it followed by 128 slots for the blocks it lists.
 */
module InodeIndex {
  import opened Basics
  import opened Bytes

  type Image = seq<Block>

  datatype DiskInode = DiskInode(size: u32, direct: seq<u32>, indirect1: u32, indirect2: u32, isDir: bool)
  {
    ghost predicate Ok() { |direct| == 28 }
  }

  /** 28 + 128 + 128 * 128 data blocks. */
  const MAX_BLOCKS: nat := 16540
  /** The data blocks and their 130 index blocks. */
  const MAX_SLOTS: nat := 16670
  const MAX_SIZE: nat := 8468480

  function DataBlocks(size: nat): nat {
    (size + 511) / 512
  }

  /** The least number of blocks that hold `size` bytes. */
  lemma DataBlocksLeast(size: nat)
    ensures size <= 512 * DataBlocks(size) < size + 512
  {
  }

  /** Blocks needed for `n` data blocks, index blocks included. */
  function SlotsFor(n: nat): nat {
    n + (if n > 28 then 1 else 0) + (if n > 156 then 1 + (n - 156 + 127) / 128 else 0)
  }

  function TotalBlocks(size: nat): nat {
    SlotsFor(DataBlocks(size))
  }

  datatype Slot =
    | Direct(i: nat)
    | Indirect1
    | Listed1(i: nat)
    | Indirect2
    | Second(q: nat)
    | Listed2(q: nat, r: nat)
  {
    predicate IsIndex() { Indirect1? || Indirect2? || Second? }
  }

  function SlotOf(k: nat): (s: Slot)
    requires k < MAX_SLOTS
    ensures s.Direct? ==> s.i < 28
    ensures s.Listed1? ==> s.i < 128
    ensures s.Second? || s.Listed2? ==> s.q < 128
    ensures s.Listed2? ==> s.r < 128
  {
    if k < 28 then Direct(k)
    else if k == 28 then Indirect1
    else if k < 157 then Listed1(k - 29)
    else if k == 157 then Indirect2
    else if (k - 158) % 129 == 0 then Second((k - 158) / 129)
    else Listed2((k - 158) / 129, (k - 158) % 129 - 1)
  }

  /** The slot that holds data block `i` of a file. */
  function DataSlot(i: nat): (k: nat)
    requires i < MAX_BLOCKS
    ensures i <= k < MAX_SLOTS && !SlotOf(k).IsIndex()
  {
    if i < 28 then i
    else if i < 156 then i + 1
    else 159 + (i - 156) / 128 * 129 + (i - 156) % 128
  }

  lemma DataSlotLocation(i: nat)
    requires i < MAX_BLOCKS
    ensures SlotOf(DataSlot(i)) ==
            if i < 28 then Direct(i) else if i < 156 then Listed1(i - 28) else Listed2((i - 156) / 128, (i - 156) % 128)
  {
  }

  lemma DataSlotInjective(i: nat, j: nat)
    requires i < j < MAX_BLOCKS
    ensures DataSlot(i) < DataSlot(j)
  {
  }

  /** `n` data blocks use exactly the slots up to the one of the last data block. */
  lemma SlotsForCovers(n: nat, i: nat)
    requires n <= MAX_BLOCKS && i < MAX_BLOCKS
    ensures SlotsFor(n) <= MAX_SLOTS
    ensures DataSlot(i) < SlotsFor(n) <==> i < n
    ensures n > 0 ==> SlotsFor(n) == DataSlot(n - 1) + 1
  {
  }

  lemma SlotsForMonotone(n: nat, m: nat)
    requires n <= m <= MAX_BLOCKS
    ensures SlotsFor(n) <= SlotsFor(m) && m - n <= SlotsFor(m) - SlotsFor(n)
  {
  }

  lemma SecondSlotNumber(q: nat)
    requires q < 128
    ensures SlotOf(158 + 129 * q) == Second(q)
  {
    assert 129 * q % 129 == 0 && 129 * q / 129 == q;
  }

  lemma Listed2SlotNumber(q: nat, r: nat)
    requires q < 128 && r < 128
    ensures SlotOf(159 + 129 * q + r) == Listed2(q, r)
  {
    assert (129 * q + (r + 1)) % 129 == r + 1 && (129 * q + (r + 1)) / 129 == q;
  }

  function WordAt(img: Image, b: nat, i: nat): u32
    requires i < 128
  {
    if b < |img| then Word(img[b], i) else 0
  }

  function PutWordAt(img: Image, b: nat, i: nat, v: u32): Image
    requires i < 128
  {
    if b < |img| then img[b := PutWord(img[b], i, v)] else img
  }

  lemma WordAtPut(img: Image, b: nat, i: nat, v: u32, b': nat, i': nat)
    requires i < 128 && i' < 128 && b < |img|
    ensures WordAt(PutWordAt(img, b, i, v), b', i') == if b == b' && i == i' then v else WordAt(img, b', i')
  {
    WordOfPutWord(img[b], i, v, i');
  }

  /** The block in slot `k` of inode `d`. */
  function SlotBlock(img: Image, d: DiskInode, k: nat): u32
    requires d.Ok() && k < MAX_SLOTS
  {
    match SlotOf(k)
    case Direct(i) => d.direct[i]
    case Indirect1 => d.indirect1
    case Listed1(i) => WordAt(img, d.indirect1, i)
    case Indirect2 => d.indirect2
    case Second(q) => WordAt(img, d.indirect2, q)
    case Listed2(q, r) => WordAt(img, WordAt(img, d.indirect2, q), r)
  }

  /** The blocks in the first `n` slots, in supply order. */
  ghost function Owned(img: Image, d: DiskInode, n: nat): (o: seq<nat>)
    requires d.Ok() && n <= MAX_SLOTS
    ensures |o| == n
    ensures forall k :: 0 <= k < n ==> o[k] == SlotBlock(img, d, k)
  {
    seq(n, k requires 0 <= k < n => SlotBlock(img, d, k))
  }

  /** The block that holds data block `i` of the file. */
  function BlockId(img: Image, d: DiskInode, i: nat): u32
    requires d.Ok() && i < MAX_BLOCKS
  {
    SlotBlock(img, d, DataSlot(i))
  }

  ghost predicate Within(s: seq<nat>, n: nat) {
    forall i :: 0 <= i < |s| ==> s[i] < n
  }

  /** Record block `v` in slot `k`. */
  function PutSlot(img: Image, d: DiskInode, k: nat, v: u32): (r: (Image, DiskInode))
    requires d.Ok() && k < MAX_SLOTS
    ensures |r.0| == |img| && r.1.Ok() && r.1.size == d.size && r.1.isDir == d.isDir
  {
    match SlotOf(k)
    case Direct(i) => (img, d.(direct := d.direct[i := v]))
    case Indirect1 => (img, d.(indirect1 := v))
    case Listed1(i) => (PutWordAt(img, d.indirect1, i, v), d)
    case Indirect2 => (img, d.(indirect2 := v))
    case Second(q) => (PutWordAt(img, d.indirect2, q, v), d)
    case Listed2(q, r) => (PutWordAt(img, WordAt(img, d.indirect2, q), r, v), d)
  }

  /** Record the blocks `vs` in the slots from `k` on. */
  ghost function Grow(img: Image, d: DiskInode, k: nat, vs: seq<u32>): (r: (Image, DiskInode))
    requires d.Ok() && k + |vs| <= MAX_SLOTS
    ensures |r.0| == |img| && r.1.Ok() && r.1.size == d.size && r.1.isDir == d.isDir
    decreases |vs|
  {
    if vs == [] then (img, d)
    else
      var n := |vs| - 1;
      var (img1, d1) := Grow(img, d, k, vs[..n]);
      PutSlot(img1, d1, k + n, vs[n])
  }

  lemma GrowStep(img: Image, d: DiskInode, k: nat, vs: seq<u32>, n: nat)
    requires d.Ok() && k + |vs| <= MAX_SLOTS && n < |vs|
    ensures var (img1, d1) := Grow(img, d, k, vs[..n]);
            Grow(img, d, k, vs[..n + 1]) == PutSlot(img1, d1, k + n, vs[n])
  {
    assert vs[..n + 1][..n] == vs[..n];
  }

  /** Growing twice is growing once with the concatenated blocks. */
  lemma {:induction false} GrowComposes(img: Image, d: DiskInode, k: nat, vs: seq<u32>, ws: seq<u32>)
    requires d.Ok() && k + |vs| + |ws| <= MAX_SLOTS
    ensures var (img1, d1) := Grow(img, d, k, vs);
            Grow(img, d, k, vs + ws) == Grow(img1, d1, k + |vs|, ws)
    decreases |ws|
  {
    if ws == [] {
      assert vs + ws == vs;
    } else {
      var n := |ws| - 1;
      GrowComposes(img, d, k, vs, ws[..n]);
      assert (vs + ws)[..|vs| + n] == vs + ws[..n];
    }
  }

  /** The index blocks among the first `n` slots lie on the image and `img'` agrees with `img` on them. */
  ghost predicate SameIndex(img: Image, img': Image, d: DiskInode, n: nat)
    requires d.Ok() && n <= MAX_SLOTS
  {
    && |img'| == |img|
    && forall m :: 0 <= m < n && SlotOf(m).IsIndex() ==>
         SlotBlock(img, d, m) < |img| && img'[SlotBlock(img, d, m)] == img[SlotBlock(img, d, m)]
  }

  lemma SlotBlockFrame(img: Image, img': Image, d: DiskInode, n: nat, k: nat)
    requires d.Ok() && k < n <= MAX_SLOTS && SameIndex(img, img', d, n)
    ensures SlotBlock(img', d, k) == SlotBlock(img, d, k)
  {
    match SlotOf(k)
    case Direct(_) =>
    case Indirect1 =>
    case Indirect2 =>
    case Listed1(_) => assert SlotOf(28).Indirect1?;
    case Second(_) => assert SlotOf(157).Indirect2?;
    case Listed2(q, r) =>
      assert SlotOf(157).Indirect2?;
      SecondSlotNumber(q);
  }

  /** An inode whose index blocks are untouched owns the same blocks. */
  lemma OwnedFrame(img: Image, img': Image, d: DiskInode, n: nat)
    requires d.Ok() && n <= MAX_SLOTS && SameIndex(img, img', d, n)
    ensures Owned(img', d, n) == Owned(img, d, n)
  {
    forall k | 0 <= k < n ensures SlotBlock(img', d, k) == SlotBlock(img, d, k) {
      SlotBlockFrame(img, img', d, n, k);
    }
  }

  /** Slot `m` is one of the first `n` and holds index block `b`. */
  ghost predicate IndexBlockAt(o: seq<nat>, b: nat, m: nat)
    requires |o| <= MAX_SLOTS
  {
    m < |o| && SlotOf(m).IsIndex() && o[m] == b
  }

  /** The images differ at most on blocks that the list `o` of owned blocks has in an index slot. */
  ghost predicate OnlyIndexChanged(img: Image, img': Image, o: seq<nat>)
    requires |o| <= MAX_SLOTS
  {
    && |img'| == |img|
    && forall b :: 0 <= b < |img| && img'[b] != img[b] ==> exists m :: IndexBlockAt(o, b, m)
  }

  lemma PutSlotKeeps(img: Image, d: DiskInode, k: nat, v: u32, j: nat)
    requires d.Ok() && j < k < MAX_SLOTS
    requires Distinct(Owned(img, d, k)) && Within(Owned(img, d, k), |img|)
    ensures var (img', d') := PutSlot(img, d, k, v); SlotBlock(img', d', j) == SlotBlock(img, d, j)
  {
    var o := Owned(img, d, k);
    assert k > 28 ==> o[28] == d.indirect1;
    assert k > 157 ==> o[157] == d.indirect2;
    match SlotOf(k)
    case Direct(_) =>
    case Indirect1 =>
    case Indirect2 =>
    case Listed1(i) =>
      if SlotOf(j).Listed1? { WordAtPut(img, d.indirect1, i, v, d.indirect1, SlotOf(j).i); }
    case Second(q) => PutSecondKeeps(img, d, k, v, j);
    case Listed2(q, r) => PutListed2Keeps(img, d, k, v, j);
  }

  lemma SecondSlot(img: Image, d: DiskInode, q: nat, k: nat)
    requires d.Ok() && k <= MAX_SLOTS && q < 128 && 158 + 129 * q < k
    ensures Owned(img, d, k)[158 + 129 * q] == WordAt(img, d.indirect2, q)
    ensures SlotOf(158 + 129 * q) == Second(q)
  {
    SecondSlotNumber(q);
  }

  lemma PutSecondKeeps(img: Image, d: DiskInode, k: nat, v: u32, j: nat)
    requires d.Ok() && j < k < MAX_SLOTS && SlotOf(k).Second?
    requires Distinct(Owned(img, d, k)) && Within(Owned(img, d, k), |img|)
    ensures var (img', d') := PutSlot(img, d, k, v); SlotBlock(img', d', j) == SlotBlock(img, d, j)
  {
    var o := Owned(img, d, k);
    var x, q := d.indirect2, SlotOf(k).q;
    assert o[28] == d.indirect1 && o[157] == x;
    match SlotOf(j)
    case Direct(_) =>
    case Indirect1 =>
    case Indirect2 =>
    case Listed1(i) => WordAtPut(img, x, q, v, d.indirect1, i);
    case Second(q') => WordAtPut(img, x, q, v, x, q');
    case Listed2(q', r) =>
      SecondSlot(img, d, q', k);
      WordAtPut(img, x, q, v, x, q');
      WordAtPut(img, x, q, v, WordAt(img, x, q'), r);
  }

  lemma PutListed2Keeps(img: Image, d: DiskInode, k: nat, v: u32, j: nat)
    requires d.Ok() && j < k < MAX_SLOTS && SlotOf(k).Listed2?
    requires Distinct(Owned(img, d, k)) && Within(Owned(img, d, k), |img|)
    ensures var (img', d') := PutSlot(img, d, k, v); SlotBlock(img', d', j) == SlotBlock(img, d, j)
  {
    var o := Owned(img, d, k);
    var Listed2(q, r) := SlotOf(k);
    var x := WordAt(img, d.indirect2, q);
    SecondSlot(img, d, q, k);
    assert o[28] == d.indirect1 && o[157] == d.indirect2;
    match SlotOf(j)
    case Direct(_) =>
    case Indirect1 =>
    case Indirect2 =>
    case Listed1(i) => WordAtPut(img, x, r, v, d.indirect1, i);
    case Second(q') => WordAtPut(img, x, r, v, d.indirect2, q');
    case Listed2(q', r') =>
      SecondSlot(img, d, q', k);
      WordAtPut(img, x, r, v, d.indirect2, q');
      WordAtPut(img, x, r, v, WordAt(img, d.indirect2, q'), r');
  }

  lemma PutSlotAt(img: Image, d: DiskInode, k: nat, v: u32)
    requires d.Ok() && k < MAX_SLOTS
    requires Distinct(Owned(img, d, k)) && Within(Owned(img, d, k), |img|)
    ensures var (img', d') := PutSlot(img, d, k, v); SlotBlock(img', d', k) == v
    ensures OnlyIndexChanged(img, PutSlot(img, d, k, v).0, Owned(img, d, k))
  {
    var o := Owned(img, d, k);
    assert k > 28 ==> IndexBlockAt(o, d.indirect1, 28);
    assert k > 157 ==> IndexBlockAt(o, d.indirect2, 157);
    match SlotOf(k)
    case Direct(_) =>
    case Indirect1 =>
    case Indirect2 =>
    case Listed1(i) => WordAtPut(img, d.indirect1, i, v, d.indirect1, i);
    case Second(q) => WordAtPut(img, d.indirect2, q, v, d.indirect2, q);
    case Listed2(q, r) =>
      var x := WordAt(img, d.indirect2, q);
      SecondSlot(img, d, q, k);
      assert IndexBlockAt(o, x, 158 + 129 * q);
      WordAtPut(img, x, r, v, x, r);
      WordAtPut(img, x, r, v, d.indirect2, q);
  }

  lemma PutSlotOwned(img: Image, d: DiskInode, k: nat, v: u32)
    requires d.Ok() && k < MAX_SLOTS
    requires Distinct(Owned(img, d, k)) && Within(Owned(img, d, k), |img|)
    ensures var (img', d') := PutSlot(img, d, k, v); Owned(img', d', k + 1) == Owned(img, d, k) + [v]
  {
    var (img', d') := PutSlot(img, d, k, v);
    PutSlotAt(img, d, k, v);
    var o, o' := Owned(img, d, k) + [v], Owned(img', d', k + 1);
    forall j | 0 <= j <= k ensures o'[j] == o[j] {
      if j < k {
        PutSlotKeeps(img, d, k, v, j);
      }
    }
  }

  lemma OnlyIndexTrans(img: Image, img1: Image, img2: Image, o: seq<nat>, v: nat)
    requires |o| < MAX_SLOTS && OnlyIndexChanged(img, img1, o) && OnlyIndexChanged(img1, img2, o)
    ensures OnlyIndexChanged(img, img2, o + [v])
  {
    forall b | 0 <= b < |img| && img2[b] != img[b] ensures exists m :: IndexBlockAt(o + [v], b, m) {
      var m :| IndexBlockAt(o, b, m);
      assert IndexBlockAt(o + [v], b, m);
    }
  }

  /**
   Growth appends exactly the supplied blocks to the blocks the inode owns, so old slots keep
   their block, and it writes to index blocks only.
   */
  lemma {:induction false} GrowOwned(img: Image, d: DiskInode, k: nat, vs: seq<u32>)
    requires d.Ok() && k + |vs| <= MAX_SLOTS
    requires Distinct(Owned(img, d, k) + vs) && Within(Owned(img, d, k) + vs, |img|)
    ensures var (img', d') := Grow(img, d, k, vs);
            && Owned(img', d', k + |vs|) == Owned(img, d, k) + vs
            && OnlyIndexChanged(img, img', Owned(img, d, k) + vs)
    decreases |vs|
  {
    var o := Owned(img, d, k);
    if vs == [] {
      assert o + vs == o;
    } else {
      var n := |vs| - 1;
      var o1 := o + vs[..n];
      assert o + vs == o1 + [vs[n]];
      assert o1 == (o + vs)[..k + n];
      GrowOwned(img, d, k, vs[..n]);
      var (img1, d1) := Grow(img, d, k, vs[..n]);
      PutSlotOwned(img1, d1, k + n, vs[n]);
      PutSlotAt(img1, d1, k + n, vs[n]);
      var img2 := PutSlot(img1, d1, k + n, vs[n]).0;
      OnlyIndexTrans(img, img1, img2, o1, vs[n]);
    }
  }

  /** A block in a data slot is not one of the index blocks. */
  lemma DataBlocksUntouched(img: Image, img': Image, o: seq<nat>, k: nat)
    requires |o| <= MAX_SLOTS && Distinct(o) && k < |o| && !SlotOf(k).IsIndex() && o[k] < |img|
    requires OnlyIndexChanged(img, img', o)
    ensures img'[o[k]] == img[o[k]]
  {
    forall m: nat ensures !IndexBlockAt(o, o[k], m) {
    }
  }

  ghost predicate IndexesOpened(k: int) { true }

  /** The first `|o|` slots of `d` hold the blocks `o`. */
  ghost predicate Indexes(img: Image, d: DiskInode, o: seq<nat>) {
    d.Ok() && |o| <= MAX_SLOTS && forall k :: IndexesOpened(k) ==> Owned(img, d, |o|) == o
  }

  ghost predicate PrivateOpened(k: int) { true }

  /** `o` lists distinct blocks below `n`, none of them locked. */
  ghost predicate Private(o: seq<nat>, n: nat, locked: set<nat>) {
    forall k :: PrivateOpened(k) ==> Distinct(o) && Within(o, n) && forall i :: 0 <= i < |o| ==> o[i] !in locked
  }

  lemma IndexesAt(img: Image, d: DiskInode, o: seq<nat>, k: nat)
    requires Indexes(img, d, o) && k < |o|
    ensures SlotBlock(img, d, k) == o[k]
  {
    assert IndexesOpened(0);
  }

  lemma PrivateAt(o: seq<nat>, n: nat, locked: set<nat>, k: nat)
    requires Private(o, n, locked) && k < |o|
    ensures o[k] < n && o[k] !in locked
  {
    assert PrivateOpened(0);
  }

  lemma PrivateDiffer(o: seq<nat>, n: nat, locked: set<nat>, k: nat, m: nat)
    requires Private(o, n, locked) && k < |o| && m < |o| && k != m
    ensures o[k] != o[m]
  {
    assert PrivateOpened(0);
  }

  /** Writing a data block of a file leaves its index alone. */
  lemma IndexesAfterDataWrite(img: Image, d: DiskInode, o: seq<nat>, locked: set<nat>, k: nat, b: Block)
    requires Indexes(img, d, o) && Private(o, |img|, locked) && k < |o| && !SlotOf(k).IsIndex() && o[k] < |img|
    ensures Indexes(img[o[k] := b], d, o)
  {
    var img' := img[o[k] := b];
    assert SameIndex(img, img', d, |o|) by {
      forall m | 0 <= m < |o| && SlotOf(m).IsIndex()
        ensures SlotBlock(img, d, m) < |img| && img'[SlotBlock(img, d, m)] == img[SlotBlock(img, d, m)]
      {
        IndexesAt(img, d, o, m);
        PrivateAt(o, |img|, locked, m);
        PrivateDiffer(o, |img|, locked, k, m);
      }
    }
    assert IndexesOpened(0);
    OwnedFrame(img, img', d, |o|);
  }

  /** A file whose blocks are all untouched keeps its index. */
  lemma IndexesElsewhere(img: Image, img': Image, d: DiskInode, o: seq<nat>, locked: set<nat>)
    requires Indexes(img, d, o) && Private(o, |img|, locked) && |img'| == |img|
    requires forall k :: 0 <= k < |o| && o[k] < |img| ==> img'[o[k]] == img[o[k]]
    ensures Indexes(img', d, o)
  {
    assert SameIndex(img, img', d, |o|) by {
      forall m | 0 <= m < |o| && SlotOf(m).IsIndex()
        ensures SlotBlock(img, d, m) < |img| && img'[SlotBlock(img, d, m)] == img[SlotBlock(img, d, m)]
      {
        IndexesAt(img, d, o, m);
        PrivateAt(o, |img|, locked, m);
      }
    }
    assert IndexesOpened(0);
    OwnedFrame(img, img', d, |o|);
  }
}
