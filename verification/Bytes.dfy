/**
 Bytes, 512-byte blocks and the little-endian views the file system takes of them:
 32-bit words (index blocks, inodes, the super block) and single bits (bitmaps).
 */
module Bytes {

  type byte = x: int | 0 <= x < 256
  type u32 = x: int | 0 <= x < 0x1_0000_0000

  type Block = b: seq<byte> | |b| == 512 witness seq(512, _ => 0)

  function ZeroBlock(): (b: Block)
    ensures forall p :: 0 <= p < 512 ==> b[p] == 0
  {
    seq(512, _ => 0)
  }

  /** Byte `r` of the little-endian encoding of `v`. */
  function ByteOf(v: u32, r: nat): byte
    requires r < 4
  {
    if r == 0 then v % 256
    else if r == 1 then v / 256 % 256
    else if r == 2 then v / 256 / 256 % 256
    else v / 256 / 256 / 256
  }

  function Join(b0: byte, b1: byte, b2: byte, b3: byte): u32 {
    b0 + 256 * b1 + 65536 * b2 + 16777216 * b3
  }

  lemma JoinByteOf(v: u32)
    ensures Join(ByteOf(v, 0), ByteOf(v, 1), ByteOf(v, 2), ByteOf(v, 3)) == v
  {
    var v1 := v / 256;
    var v2 := v1 / 256;
    assert v == v % 256 + 256 * v1;
    assert v1 == v1 % 256 + 256 * v2;
    assert v2 == v2 % 256 + 256 * (v2 / 256);
  }

  /** The `i`-th 32-bit word of a block. */
  function Word(b: Block, i: nat): u32
    requires i < 128
  {
    Join(b[4 * i], b[4 * i + 1], b[4 * i + 2], b[4 * i + 3])
  }

  function PutWord(b: Block, i: nat, v: u32): Block
    requires i < 128
  {
    b[4 * i := ByteOf(v, 0)][4 * i + 1 := ByteOf(v, 1)][4 * i + 2 := ByteOf(v, 2)][4 * i + 3 := ByteOf(v, 3)]
  }

  lemma WordOfPutWord(b: Block, i: nat, v: u32, j: nat)
    requires i < 128 && j < 128
    ensures Word(PutWord(b, i, v), j) == if i == j then v else Word(b, j)
  {
    JoinByteOf(v);
  }

  lemma WordOfZero(j: nat)
    requires j < 128
    ensures Word(ZeroBlock(), j) == 0
  {
  }

  /** 2 to the power `r`: the weight of bit `r`. */
  function BitWeight(r: nat): (w: nat)
    ensures w > 0
  {
    if r == 0 then 1 else 2 * BitWeight(r - 1)
  }

  predicate ByteBit(x: nat, r: nat) {
    if r == 0 then x % 2 == 1 else ByteBit(x / 2, r - 1)
  }

  /** Bit `k` of a block: memory order of the bits of an array of little-endian `u64`. */
  predicate Bit(b: Block, k: nat)
    requires k < 4096
  {
    ByteBit(b[k / 8], k % 8)
  }

  /** Setting a clear bit of an `n`-bit number keeps it an `n`-bit number and every other bit. */
  lemma {:induction false} ByteBitSet(x: nat, n: nat, r: nat, s: nat)
    requires r < n && !ByteBit(x, r) && x < BitWeight(n)
    ensures x + BitWeight(r) < BitWeight(n)
    ensures ByteBit(x + BitWeight(r), s) == (s == r || ByteBit(x, s))
  {
    if r == 0 {
      assert (x + 1) / 2 == x / 2;
    } else {
      assert (x + BitWeight(r)) / 2 == x / 2 + BitWeight(r - 1);
      ByteBitSet(x / 2, n - 1, r - 1, if s == 0 then 0 else s - 1);
    }
  }

  lemma {:induction false} ByteBitClear(x: nat, r: nat, s: nat)
    requires ByteBit(x, r)
    ensures BitWeight(r) <= x
    ensures ByteBit(x - BitWeight(r), s) == (s != r && ByteBit(x, s))
  {
    if r == 0 {
      assert (x - 1) / 2 == x / 2;
    } else {
      ByteBitClear(x / 2, r - 1, if s == 0 then 0 else s - 1);
      assert (x - BitWeight(r)) / 2 == x / 2 - BitWeight(r - 1);
    }
  }

  lemma ByteWeight()
    ensures BitWeight(8) == 256
  {
    assert BitWeight(4) == 16;
  }

  function SetBit(b: Block, k: nat): (c: Block)
    requires k < 4096 && !Bit(b, k)
    ensures forall j :: 0 <= j < 4096 ==> Bit(c, j) == (j == k || Bit(b, j))
  {
    ByteWeight();
    ByteBitSet(b[k / 8], 8, k % 8, 0);
    var c := b[k / 8 := b[k / 8] + BitWeight(k % 8)];
    assert forall j :: 0 <= j < 4096 ==> Bit(c, j) == (j == k || Bit(b, j)) by {
      forall j | 0 <= j < 4096 ensures Bit(c, j) == (j == k || Bit(b, j)) {
        ByteBitSet(b[k / 8], 8, k % 8, j % 8);
      }
    }
    c
  }

  function ClearBit(b: Block, k: nat): (c: Block)
    requires k < 4096 && Bit(b, k)
    ensures forall j :: 0 <= j < 4096 ==> Bit(c, j) == (j != k && Bit(b, j))
  {
    ByteBitClear(b[k / 8], k % 8, 0);
    var c := b[k / 8 := b[k / 8] - BitWeight(k % 8)];
    assert forall j :: 0 <= j < 4096 ==> Bit(c, j) == (j != k && Bit(b, j)) by {
      forall j | 0 <= j < 4096 ensures Bit(c, j) == (j != k && Bit(b, j)) {
        ByteBitClear(b[k / 8], k % 8, j % 8);
      }
    }
    c
  }

  lemma BitOfZero(k: nat)
    requires k < 4096
    ensures !Bit(ZeroBlock(), k)
  {
    ZeroBits(k % 8);
  }

  lemma ZeroBits(r: nat)
    ensures !ByteBit(0, r)
  {
  }
}
