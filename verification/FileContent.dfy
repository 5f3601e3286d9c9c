/**
 Files as byte sequences cut into 512-byte blocks. Past its end a file is taken to be zero,
 so the last block of a file is padded with zeros.
 */
module FileContent {
  import opened Basics
  import opened Bytes

  /** Block `i` of the file `f`. */
  function BlockOf(f: seq<byte>, i: nat): (b: Block)
    ensures forall x :: 0 <= x < 512 ==> b[x] == if 512 * i + x < |f| then f[512 * i + x] else 0
  {
    seq(512, x requires 0 <= x < 512 => if 512 * i + x < |f| then f[512 * i + x] else 0)
  }

  lemma BlockOfPastEnd(f: seq<byte>, i: nat)
    requires |f| <= 512 * i
    ensures BlockOf(f, i) == ZeroBlock()
  {
  }

  /** `f` with the bytes from `off` on replaced by `data`, extended with zeros up to `off` when it ends before. */
  function Overwrite(f: seq<byte>, off: nat, data: seq<byte>): (g: seq<byte>)
    ensures |g| == if |f| < off + |data| then off + |data| else |f|
    ensures forall p :: 0 <= p < |g| ==>
              g[p] == if off <= p < off + |data| then data[p - off] else if p < |f| then f[p] else 0
  {
    seq(if |f| < off + |data| then off + |data| else |f|,
        p requires 0 <= p => if off <= p < off + |data| then data[p - off] else if p < |f| then f[p] else 0)
  }

  /** The bytes of `f` from `off` on, at most `len` of them: what a read delivers. */
  function Slice(f: seq<byte>, off: nat, len: nat): (s: seq<byte>)
    ensures |s| == if off >= |f| then 0 else Min(len, |f| - off)
    ensures forall k :: 0 <= k < |s| ==> s[k] == f[off + k]
  {
    if off >= Min(off + len, |f|) then [] else f[off..Min(off + len, |f|)]
  }

  /** A block with its bytes from `at` on replaced by `src`. */
  function Splice(b: Block, at: nat, src: seq<byte>): (r: Block)
    requires at + |src| <= 512
    ensures forall x :: 0 <= x < 512 ==> r[x] == if at <= x < at + |src| then src[x - at] else b[x]
  {
    b[..at] + src + b[at + |src|..]
  }

  /** Copying the next piece of `data` into its block turns the block of a partial write into that of a longer one. */
  lemma SpliceExtends(f: seq<byte>, off: nat, data: seq<byte>, done: nat, more: nat, i: nat)
    requires done + more <= |data| && i == (off + done) / 512 && (off + done) % 512 + more <= 512
    ensures Splice(BlockOf(Overwrite(f, off, data[..done]), i), (off + done) % 512, data[done..done + more])
            == BlockOf(Overwrite(f, off, data[..done + more]), i)
  {
    var l := Splice(BlockOf(Overwrite(f, off, data[..done]), i), (off + done) % 512, data[done..done + more]);
    var r := BlockOf(Overwrite(f, off, data[..done + more]), i);
    forall x | 0 <= x < 512 ensures l[x] == r[x] {
      var p := 512 * i + x;
      assert 512 * i + (off + done) % 512 == off + done;
    }
  }

  /** Extending a write inside block `i` changes no other block. */
  lemma SpliceElsewhere(f: seq<byte>, off: nat, data: seq<byte>, done: nat, more: nat, i: nat)
    requires done + more <= |data| && (off + done) % 512 + more <= 512 && i != (off + done) / 512
    ensures BlockOf(Overwrite(f, off, data[..done]), i) == BlockOf(Overwrite(f, off, data[..done + more]), i)
  {
    var l := BlockOf(Overwrite(f, off, data[..done]), i);
    var r := BlockOf(Overwrite(f, off, data[..done + more]), i);
    forall x | 0 <= x < 512 ensures l[x] == r[x] {
      var p := 512 * i + x;
      assert p < off + done || off + done + more <= p by {
        var w := (off + done) / 512;
        assert 512 * w + (off + done) % 512 == off + done;
        if i < w { assert 512 * i + 512 <= 512 * w; }
      }
    }
  }

  /** A piece of a block is the same piece of the file. */
  lemma BlockPiece(f: seq<byte>, start: nat, len: nat)
    requires start + len <= |f| && start % 512 + len <= 512
    ensures BlockOf(f, start / 512)[start % 512..start % 512 + len] == f[start..start + len]
  {
    assert 512 * (start / 512) + start % 512 == start;
  }

  /** Reading what was written, inside the written range. */
  lemma SliceOfOverwrite(f: seq<byte>, off: nat, data: seq<byte>)
    ensures Slice(Overwrite(f, off, data), off, |data|) == data
  {
  }
}
