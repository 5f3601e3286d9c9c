/**
 The bitmap allocators (easy-fs/src/bitmap.rs). A bitmap of `blocks` blocks starting at block
 `start` stands for a set of numbers `base + k`, one per set bit `k`.
 */
module Bitmap {
  import opened Bytes
  import opened BlockCache
  import opened InodeIndex
  import opened Options

  ghost predicate MarksOpened(k: int) { true }

  ghost predicate BitAt(img: Image, start: nat, k: nat) {
    start + k / 4096 < |img| && Bit(img[start + k / 4096], k % 4096)
  }

  /** The set bits of the bitmap are exactly the members of `s`. */
  ghost predicate Marks(img: Image, start: nat, blocks: nat, base: nat, s: set<nat>) {
    && start + blocks <= |img|
    && forall o :: MarksOpened(o) ==>
         && (forall k :: 0 <= k < 4096 * blocks ==> (BitAt(img, start, k) <==> base + k in s))
         && (forall x :: x in s ==> base <= x < base + 4096 * blocks)
  }

  lemma MarksAt(img: Image, start: nat, blocks: nat, base: nat, s: set<nat>, k: nat)
    requires Marks(img, start, blocks, base, s) && k < 4096 * blocks
    ensures BitAt(img, start, k) <==> base + k in s
  {
    assert MarksOpened(0);
  }

  lemma MarksRange(img: Image, start: nat, blocks: nat, base: nat, s: set<nat>, x: nat)
    requires Marks(img, start, blocks, base, s) && x in s
    ensures base <= x < base + 4096 * blocks
  {
    assert MarksOpened(0);
  }

  lemma MarksFrame(img: Image, img': Image, start: nat, blocks: nat, base: nat, s: set<nat>)
    requires Marks(img, start, blocks, base, s) && |img'| == |img|
    requires forall b :: start <= b < start + blocks ==> img'[b] == img[b]
    ensures Marks(img', start, blocks, base, s)
  {
    assert MarksOpened(0);
    forall k | 0 <= k < 4096 * blocks ensures BitAt(img', start, k) <==> base + k in s {
      assert BitAt(img, start, k) <==> base + k in s;
      assert img'[start + k / 4096] == img[start + k / 4096];
    }
  }

  lemma MarksZero(img: Image, start: nat, blocks: nat, base: nat)
    requires start + blocks <= |img| && forall b :: start <= b < start + blocks ==> img[b] == ZeroBlock()
    ensures Marks(img, start, blocks, base, {})
  {
    forall k | 0 <= k < 4096 * blocks ensures !BitAt(img, start, k) {
      assert img[start + k / 4096] == ZeroBlock();
      BitOfZero(k % 4096);
    }
  }

  lemma MarksSet(img: Image, start: nat, blocks: nat, base: nat, s: set<nat>, k: nat)
    requires Marks(img, start, blocks, base, s) && k < 4096 * blocks && !BitAt(img, start, k)
    ensures var b := start + k / 4096;
            Marks(img[b := SetBit(img[b], k % 4096)], start, blocks, base, s + {base + k})
  {
    assert MarksOpened(0);
    var b := start + k / 4096;
    var img' := img[b := SetBit(img[b], k % 4096)];
    forall j | 0 <= j < 4096 * blocks ensures BitAt(img', start, j) <==> base + j in s + {base + k} {
      assert BitAt(img, start, j) <==> base + j in s;
    }
  }

  lemma MarksClear(img: Image, start: nat, blocks: nat, base: nat, s: set<nat>, k: nat)
    requires Marks(img, start, blocks, base, s) && k < 4096 * blocks && BitAt(img, start, k)
    ensures var b := start + k / 4096;
            Marks(img[b := ClearBit(img[b], k % 4096)], start, blocks, base, s - {base + k})
  {
    assert MarksOpened(0);
    var b := start + k / 4096;
    var img' := img[b := ClearBit(img[b], k % 4096)];
    forall j | 0 <= j < 4096 * blocks ensures BitAt(img', start, j) <==> base + j in s - {base + k} {
      assert BitAt(img, start, j) <==> base + j in s;
    }
  }

  /** The `u64` made of bytes `8 * w .. 8 * w + 8` equals `u64::MAX`. */
  predicate AllOnes(b: Block, w: nat)
    requires w < 64
  {
    forall p :: 8 * w <= p < 8 * w + 8 ==> b[p] == 255
  }

  lemma {:induction false} ByteOfOnes(x: nat, n: nat, r: nat)
    requires r < n && x + 1 == BitWeight(n)
    ensures ByteBit(x, r)
  {
    assert BitWeight(n) == 2 * BitWeight(n - 1);
    if r > 0 {
      ByteOfOnes(x / 2, n - 1, r - 1);
    }
  }

  lemma {:induction false} OnesOfByte(x: nat, n: nat)
    requires x < BitWeight(n) && forall r :: 0 <= r < n ==> ByteBit(x, r)
    ensures x + 1 == BitWeight(n)
  {
    if n > 0 {
      assert ByteBit(x, 0);
      forall r | 0 <= r < n - 1 ensures ByteBit(x / 2, r) {
        assert ByteBit(x, r + 1);
      }
      OnesOfByte(x / 2, n - 1);
    }
  }

  /** A 64-bit word is `u64::MAX` exactly when its 64 bits are set. */
  lemma AllOnesBits(b: Block, w: nat)
    requires w < 64
    ensures AllOnes(b, w) <==> forall k :: 64 * w <= k < 64 * w + 64 ==> Bit(b, k)
  {
    ByteWeight();
    if AllOnes(b, w) {
      forall k | 64 * w <= k < 64 * w + 64 ensures Bit(b, k) {
        assert b[k / 8] == 255;
        ByteOfOnes(255, 8, k % 8);
      }
    }
    if forall k :: 64 * w <= k < 64 * w + 64 ==> Bit(b, k) {
      forall p | 8 * w <= p < 8 * w + 8 ensures b[p] == 255 {
        var x := b[p];
        forall q | 0 <= q < 8 ensures ByteBit(x, q) {
          assert Bit(b, 8 * p + q);
        }
        OnesOfByte(x, 8);
      }
    }
  }

  /** The lowest clear bit of a block: the first word that is not `u64::MAX` and its trailing ones. */
  method FirstClear(b: Block) returns (r: Option<nat>)
    ensures r.Some? ==> r.value < 4096 && !Bit(b, r.value) && forall j :: 0 <= j < r.value ==> Bit(b, j)
    ensures r.None? ==> forall j :: 0 <= j < 4096 ==> Bit(b, j)
  {
    var w := 0;
    while w < 64 && AllOnes(b, w)
      invariant 0 <= w <= 64 && forall j :: 0 <= j < 64 * w ==> Bit(b, j)
    {
      AllOnesBits(b, w);
      w := w + 1;
    }
    if w == 64 {
      return None;
    }
    AllOnesBits(b, w);
    var ones := 0;
    while ones < 64 && Bit(b, 64 * w + ones)
      invariant 0 <= ones <= 64 && forall j :: 0 <= j < 64 * w + ones ==> Bit(b, j)
    {
      ones := ones + 1;
    }
    return Some(64 * w + ones);
  }

  /**
   First-fit allocation: the lowest clear bit of the whole bitmap is set and returned, and
   `None` means that every bit is set.
   */
  method Alloc(c: BlockCacheManager, start: nat, blocks: nat, ghost base: nat, ghost s: set<nat>) returns (r: Option<nat>)
    requires c.Ready() && |c.pinned| <= 2 && Marks(c.view, start, blocks, base, s)
    requires forall b :: start <= b < start + blocks ==> b !in c.pinned
    modifies c
    ensures c.Ready() && c.pinned == old(c.pinned) && |c.view| == old(|c.view|)
    ensures r.None? ==> c.view == old(c.view) && forall x :: base <= x < base + 4096 * blocks ==> x in s
    ensures r.Some? ==>
              && r.value < 4096 * blocks && base + r.value !in s && (forall x :: base <= x < base + r.value ==> x in s)
              && Marks(c.view, start, blocks, base, s + {base + r.value})
    ensures forall b :: 0 <= b < |c.view| && !(start <= b < start + blocks) ==> c.view[b] == old(c.view)[b]
  {
    var i := 0;
    while i < blocks
      invariant 0 <= i <= blocks
      invariant c.Ready() && c.pinned == old(c.pinned) && c.view == old(c.view)
      invariant forall x :: base <= x < base + 4096 * i ==> x in s
    {
      c.Lock(start + i);
      var block := c.Read(start + i);
      var pos := FirstClear(block);
      if pos.Some? {
        var k := 4096 * i + pos.value;
        assert k / 4096 == i && k % 4096 == pos.value;
        BlockPrefixSet(c.view, start, blocks, base, s, i, block, pos.value);
        MarksAt(c.view, start, blocks, base, s, k);
        MarksSet(c.view, start, blocks, base, s, k);
        c.Write(start + i, SetBit(block, pos.value));
        c.Unlock(start + i);
        return Some(k);
      }
      BlockPrefixSet(c.view, start, blocks, base, s, i, block, 4096);
      c.Unlock(start + i);
      i := i + 1;
    }
    return None;
  }

  lemma BlockPrefixSet(img: Image, start: nat, blocks: nat, base: nat, s: set<nat>, i: nat, block: Block, n: nat)
    requires Marks(img, start, blocks, base, s) && i < blocks && n <= 4096 && block == img[start + i]
    requires forall j :: 0 <= j < n ==> Bit(block, j)
    ensures forall x :: base + 4096 * i <= x < base + 4096 * i + n ==> x in s
  {
    forall x | base + 4096 * i <= x < base + 4096 * i + n ensures x in s {
      var k := x - base;
      assert k / 4096 == i && k % 4096 == k - 4096 * i;
      MarksAt(img, start, blocks, base, s, k);
    }
  }

  /** Clearing the bit of an allocated number; the source's assertion that the bit is set cannot fail. */
  method Dealloc(c: BlockCacheManager, start: nat, blocks: nat, bit: nat, ghost base: nat, ghost s: set<nat>)
    requires c.Ready() && |c.pinned| <= 2 && Marks(c.view, start, blocks, base, s)
    requires forall b :: start <= b < start + blocks ==> b !in c.pinned
    requires bit < 4096 * blocks && base + bit in s
    modifies c
    ensures c.Ready() && c.pinned == old(c.pinned) && |c.view| == old(|c.view|)
    ensures Marks(c.view, start, blocks, base, s - {base + bit})
    ensures forall b :: 0 <= b < |c.view| && !(start <= b < start + blocks) ==> c.view[b] == old(c.view)[b]
  {
    var b := start + bit / 4096;
    MarksAt(c.view, start, blocks, base, s, bit);
    c.Lock(b);
    var block := c.Read(b);
    assert Bit(block, bit % 4096);
    MarksClear(c.view, start, blocks, base, s, bit);
    c.Write(b, ClearBit(block, bit % 4096));
    c.Unlock(b);
  }
}
