/**
 The slots of an inode that growth has not filled yet (easy-fs/src/layout.rs): they hold zero,
 and that decides what `get_block_id` answers for the first data block past the end of a file.
 */
module SpareSlots {
  import opened Basics
  import opened Bytes
  import opened InodeIndex


  /** How many slots must be filled before slot `k` can be looked up: up to the index block that lists it. */
  function Anchor(k: nat): (n: nat)
    requires k < MAX_SLOTS
    ensures n <= k
  {
    match SlotOf(k)
    case Listed1(_) => 29
    case Second(_) => 158
    case Listed2(q, _) => 159 + 129 * q
    case _ => 0
  }

  ghost predicate SpareOpened(k: int) { true }

  /** With the first `n` slots filled, every other slot that can be looked up holds zero. */
  ghost predicate Spare(img: Image, d: DiskInode, n: nat) {
    && d.Ok() && n <= MAX_SLOTS
    && forall o :: SpareOpened(o) ==> forall k :: n <= k < MAX_SLOTS && Anchor(k) <= n ==> SlotBlock(img, d, k) == 0
  }

  lemma SpareAt(img: Image, d: DiskInode, n: nat, k: nat)
    requires Spare(img, d, n) && n <= k < MAX_SLOTS && Anchor(k) <= n
    ensures SlotBlock(img, d, k) == 0
  {
    assert SpareOpened(0);
  }

  lemma SpareFrame(img: Image, img': Image, d: DiskInode, n: nat)
    requires Spare(img, d, n) && SameIndex(img, img', d, n)
    ensures Spare(img', d, n)
  {
    forall k | n <= k < MAX_SLOTS && Anchor(k) <= n ensures SlotBlock(img', d, k) == 0 {
      SpareAt(img, d, n, k);
      match SlotOf(k)
      case Direct(_) =>
      case Indirect1 =>
      case Indirect2 =>
      case Listed1(_) => assert SlotOf(28).Indirect1?;
      case Second(_) => assert SlotOf(157).Indirect2?;
      case Listed2(q, r) =>
        assert SlotOf(157).Indirect2?;
        SecondSlotNumber(q);
        assert SlotOf(158 + 129 * q).IsIndex();
    }
  }

  /** An inode that holds nothing. */
  ghost predicate Unused(d: DiskInode) {
    d.Ok() && d.size == 0 && d.indirect1 == 0 && d.indirect2 == 0 && forall i :: 0 <= i < 28 ==> d.direct[i] == 0
  }

  lemma SpareUnused(img: Image, d: DiskInode)
    requires Unused(d)
    ensures Spare(img, d, 0)
  {
  }

  lemma SpareAnySize(img: Image, d: DiskInode, size: u32, n: nat)
    requires Spare(img, d, n)
    ensures Spare(img, d.(size := size), n)
  {
    forall k | n <= k < MAX_SLOTS && Anchor(k) <= n ensures SlotBlock(img, d.(size := size), k) == 0 {
      SpareAt(img, d, n, k);
    }
  }

  lemma SparePutListed(img: Image, d: DiskInode, n: nat, v: u32, k: nat)
    requires n < k < MAX_SLOTS && Anchor(k) <= n && Spare(img, d, n)
    requires Distinct(Owned(img, d, n)) && Within(Owned(img, d, n), |img|)
    requires SlotOf(n).Listed1? || SlotOf(n).Second? || SlotOf(n).Listed2?
    ensures var (img', d') := PutSlot(img, d, n, v); SlotBlock(img', d', k) == 0
  {
    var o := Owned(img, d, n);
    SpareAt(img, d, n, k);
    match SlotOf(n)
    case Listed1(i) =>
      assert o[28] == d.indirect1;
      if SlotOf(k).Listed1? { WordAtPut(img, d.indirect1, i, v, d.indirect1, SlotOf(k).i); }
    case Second(q) =>
      assert o[157] == d.indirect2;
      if SlotOf(k).Second? { WordAtPut(img, d.indirect2, q, v, d.indirect2, SlotOf(k).q); }
    case Listed2(q, r) =>
      var x := WordAt(img, d.indirect2, q);
      assert o[157] == d.indirect2;
      SecondSlot(img, d, q, n);
      assert x != d.indirect2 && x < |img|;
      if SlotOf(k).Second? {
        WordAtPut(img, x, r, v, d.indirect2, SlotOf(k).q);
      } else if SlotOf(k).Listed2? {
        var Listed2(q', r') := SlotOf(k);
        assert q' == q;
        WordAtPut(img, x, r, v, d.indirect2, q);
        WordAtPut(img, x, r, v, x, r');
      }
  }

  lemma WordsOfZeroBlock(img: Image, v: u32, i: nat)
    requires v < |img| && img[v] == ZeroBlock() && i < 128
    ensures WordAt(img, v, i) == 0
  {
    WordOfZero(i);
  }

  lemma SparePutSecond(img: Image, d: DiskInode, q: nat, v: u32, r: nat)
    requires q < 128 && r < 128 && d.indirect2 < |img| && d.indirect2 != v
    requires v < |img| && img[v] == ZeroBlock()
    ensures var img' := PutWordAt(img, d.indirect2, q, v); WordAt(img', WordAt(img', d.indirect2, q), r) == 0
  {
    WordAtPut(img, d.indirect2, q, v, d.indirect2, q);
    WordAtPut(img, d.indirect2, q, v, v, r);
    WordsOfZeroBlock(img, v, r);
  }

  /** The slot that slot `k` is anchored in. */
  lemma AnchorSlot(k: nat, n: nat)
    requires k < MAX_SLOTS && Anchor(k) == n + 1
    ensures n < MAX_SLOTS
    ensures SlotOf(n) == match SlotOf(k) case Listed1(_) => Indirect1 case Second(_) => Indirect2 case Listed2(q, _) => Second(q) case s => s
  {
    if SlotOf(k).Listed2? { SecondSlotNumber(SlotOf(k).q); }
  }

  /** A zero block put in an index slot lists nothing. */
  lemma SparePutIndex(img: Image, d: DiskInode, n: nat, v: u32, k: nat)
    requires d.Ok() && n < k < MAX_SLOTS && Anchor(k) == n + 1
    requires n > 157 ==> d.indirect2 < |img| && d.indirect2 != v
    requires v < |img| && img[v] == ZeroBlock()
    ensures var (img', d') := PutSlot(img, d, n, v); SlotBlock(img', d', k) == 0
  {
    AnchorSlot(k, n);
    var s, p := SlotOf(k), PutSlot(img, d, n, v);
    if s.Listed1? {
      assert p == (img, d.(indirect1 := v));
      WordsOfZeroBlock(img, v, s.i);
    } else if s.Second? {
      assert p == (img, d.(indirect2 := v));
      WordsOfZeroBlock(img, v, s.q);
    } else if s.Listed2? {
      assert p == (PutWordAt(img, d.indirect2, s.q, v), d);
      SparePutSecond(img, d, s.q, v, s.r);
    }
  }

  /** Filling the next slot with a zero block leaves the slots after it zero. */
  lemma SparePut(img: Image, d: DiskInode, n: nat, v: u32)
    requires n < MAX_SLOTS && Spare(img, d, n)
    requires Distinct(Owned(img, d, n) + [v]) && Within(Owned(img, d, n) + [v], |img|)
    requires v < |img| && img[v] == ZeroBlock()
    ensures var (img', d') := PutSlot(img, d, n, v); Spare(img', d', n + 1)
  {
    var o := Owned(img, d, n);
    var (img', d') := PutSlot(img, d, n, v);
    assert Distinct(o) && Within(o, |img|) by {
      assert forall i :: 0 <= i < n ==> (o + [v])[i] == o[i];
    }
    forall k | n + 1 <= k < MAX_SLOTS && Anchor(k) <= n + 1 ensures SlotBlock(img', d', k) == 0 {
      if Anchor(k) == n + 1 {
        assert n > 157 ==> (o + [v])[157] == d.indirect2 && (o + [v])[n] == v;
        SparePutIndex(img, d, n, v, k);
      } else if SlotOf(n).Listed1? || SlotOf(n).Second? || SlotOf(n).Listed2? {
        SparePutListed(img, d, n, v, k);
      } else {
        SpareAt(img, d, n, k);
      }
    }
  }

  lemma ChangedIndexOnly(img: Image, img': Image, o: seq<nat>, v: nat)
    requires |o| < MAX_SLOTS && Distinct(o + [v]) && OnlyIndexChanged(img, img', o) && v < |img|
    ensures img'[v] == img[v]
  {
    forall m: nat ensures !IndexBlockAt(o, v, m) {
      assert (o + [v])[|o|] == v;
      assert m < |o| ==> (o + [v])[m] == o[m];
    }
  }

  /** Growth with zero blocks, which is what the allocator supplies, leaves the rest of the slots zero. */
  lemma {:induction false} SpareGrow(img: Image, d: DiskInode, k: nat, vs: seq<u32>)
    requires Spare(img, d, k) && k + |vs| <= MAX_SLOTS
    requires Distinct(Owned(img, d, k) + vs) && Within(Owned(img, d, k) + vs, |img|)
    requires forall j :: 0 <= j < |vs| ==> vs[j] < |img| && img[vs[j]] == ZeroBlock()
    ensures var (img', d') := Grow(img, d, k, vs); Spare(img', d', k + |vs|)
    decreases |vs|
  {
    if vs != [] {
      var n := |vs| - 1;
      var o := Owned(img, d, k);
      var o1 := o + vs[..n];
      assert o + vs == o1 + [vs[n]];
      assert o1 == (o + vs)[..k + n];
      SpareGrow(img, d, k, vs[..n]);
      GrowOwned(img, d, k, vs[..n]);
      var (img1, d1) := Grow(img, d, k, vs[..n]);
      ChangedIndexOnly(img, img1, o1, vs[n]);
      SparePut(img1, d1, k + n, vs[n]);
    }
  }

  /** The slots stay zero as long as the index blocks of the file are untouched. */
  lemma SpareKept(img: Image, img': Image, d: DiskInode, o: seq<nat>, locked: set<nat>)
    requires Indexes(img, d, o) && Private(o, |img|, locked) && |img'| == |img| && Spare(img, d, |o|)
    requires forall k :: 0 <= k < |o| && SlotOf(k).IsIndex() && o[k] < |img| ==> img'[o[k]] == img[o[k]]
    ensures Spare(img', d, |o|)
  {
    assert SameIndex(img, img', d, |o|) by {
      forall m | 0 <= m < |o| && SlotOf(m).IsIndex()
        ensures SlotBlock(img, d, m) < |img| && img'[SlotBlock(img, d, m)] == img[SlotBlock(img, d, m)]
      {
        IndexesAt(img, d, o, m);
        PrivateAt(o, |img|, locked, m);
      }
    }
    SpareFrame(img, img', d, |o|);
  }

  lemma SpareGrown(img: Image, d: DiskInode, size: u32, o: seq<nat>, vs: seq<u32>, locked: set<nat>)
    requires Indexes(img, d, o) && Private(o + vs, |img|, locked) && Spare(img, d, |o|) && |o + vs| <= MAX_SLOTS
    requires forall j :: 0 <= j < |vs| ==> vs[j] < |img| && img[vs[j]] == ZeroBlock()
    ensures var (img', d') := Grow(img, d.(size := size), |o|, vs); Spare(img', d', |o + vs|)
  {
    var d1 := d.(size := size);
    assert IndexesOpened(0) && PrivateOpened(0);
    assert Owned(img, d1, |o|) == o by {
      assert forall k :: 0 <= k < |o| ==> SlotBlock(img, d1, k) == SlotBlock(img, d, k);
    }
    SpareAnySize(img, d, size, |o|);
    SpareGrow(img, d1, |o|, vs);
  }

  // ---- Looking up the first data block past the end of a file

  /** Every block that `get_block_id` and then the data access go through lies on the device. */
  ghost predicate LooksUp(img: Image, d: DiskInode, i: nat)
    requires d.Ok()
  {
    && i < MAX_BLOCKS
    && BlockId(img, d, i) < |img|
    && (28 <= i < 156 ==> d.indirect1 < |img|)
    && (156 <= i ==> d.indirect2 < |img| && WordAt(img, d.indirect2, (i - 156) / 128) < |img|)
  }

  /** Block numbers of which the index block comes only with the block itself, and the number past the last. */
  predicate Stuck(n: nat) {
    n == 28 || (n >= 156 && (n - 156) % 128 == 0)
  }

  lemma AnchorOfNext(n: nat)
    requires n < MAX_BLOCKS && !Stuck(n)
    ensures Anchor(DataSlot(n)) <= SlotsFor(n) <= DataSlot(n)
  {
    DataSlotLocation(n);
    SlotsForCovers(n, n);
  }

  lemma StuckSecond(n: nat)
    requires 156 <= n < MAX_BLOCKS && Stuck(n)
    ensures var a := (n - 156) / 128;
            && SlotsFor(n) == (if n == 156 then 157 else 158 + 129 * a)
            && SlotOf(DataSlot(n)) == Listed2(a, 0) && SlotOf(158 + 129 * a) == Second(a)
  {
    var a := (n - 156) / 128;
    assert n == 156 + 128 * a;
    assert (128 * a + 127) / 128 == a;
    DataSlotLocation(n);
    SecondSlotNumber(a);
  }

  /**
   The lookup of the block right after the last one of a file. Unless the number is stuck it finds
   slot zero and answers block 0, the super block. If it is stuck it takes block 0 for an index block,
   and the magic number that starts it for a block.
   */
  lemma LookupAtEnd(img: Image, d: DiskInode, n: nat)
    requires n <= MAX_BLOCKS && SlotsFor(n) <= MAX_SLOTS && Spare(img, d, SlotsFor(n))
    requires Within(Owned(img, d, SlotsFor(n)), |img|) && |img| > 0
    ensures !Stuck(n) ==> BlockId(img, d, n) == 0
    ensures var magic := Word(img[0], 0);
            LooksUp(img, d, n) <==>
            !Stuck(n) || (n < MAX_BLOCKS && magic < |img| && (n == 156 ==> WordAt(img, magic, 0) < |img|))
  {
    var s := SlotsFor(n);
    var o := Owned(img, d, s);
    assert s > 28 ==> o[28] == d.indirect1;
    assert s > 157 ==> o[157] == d.indirect2;
    if !Stuck(n) {
      AnchorOfNext(n);
      SpareAt(img, d, s, DataSlot(n));
      if n >= 156 { SecondSlot(img, d, (n - 156) / 128, s); }
    } else if n == 28 {
      SpareAt(img, d, s, 28);
    } else if n < MAX_BLOCKS {
      StuckSecond(n);
      SpareAt(img, d, s, s);
    }
  }
}
