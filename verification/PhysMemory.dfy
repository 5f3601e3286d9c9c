/**
 Physical memory and its frame allocator (os/src/mm/frame_allocator.rs, address.rs).

 A frame is 4096 bytes; a page table reads one as 512 little-endian 64-bit entries.
 */
module PhysMemory {
  import opened Basics
  import opened Options
  import opened Bytes

  type u64 = x: int | 0 <= x < 0x1_0000_0000_0000_0000
  type Frame = f: seq<byte> | |f| == 4096 witness seq(4096, _ => 0)
  type Mem = seq<Frame>

  function ZeroFrame(): (f: Frame)
    ensures forall x :: 0 <= x < 4096 ==> f[x] == 0
  {
    seq(4096, _ => 0)
  }

  function Low(v: u64): u32 { v % 0x1_0000_0000 }
  function High(v: u64): u32 { v / 0x1_0000_0000 }

  function Word32(f: Frame, p: nat): u32
    requires p + 4 <= 4096
  {
    Join(f[p], f[p + 1], f[p + 2], f[p + 3])
  }

  function PutWord32(f: Frame, p: nat, v: u32): Frame
    requires p + 4 <= 4096
  {
    f[p := ByteOf(v, 0)][p + 1 := ByteOf(v, 1)][p + 2 := ByteOf(v, 2)][p + 3 := ByteOf(v, 3)]
  }

  lemma Word32OfPut(f: Frame, p: nat, v: u32, q: nat)
    requires p + 4 <= 4096 && q + 4 <= 4096 && (p == q || p + 4 <= q || q + 4 <= p)
    ensures Word32(PutWord32(f, p, v), q) == if p == q then v else Word32(f, q)
  {
    JoinByteOf(v);
  }

  /** Entry `i` of a frame read as an array of 64-bit words. */
  function Entry64(f: Frame, i: nat): u64
    requires i < 512
  {
    Word32(f, 8 * i) + 0x1_0000_0000 * Word32(f, 8 * i + 4)
  }

  function PutEntry64(f: Frame, i: nat, v: u64): Frame
    requires i < 512
  {
    PutWord32(PutWord32(f, 8 * i, Low(v)), 8 * i + 4, High(v))
  }

  lemma Entry64OfPut(f: Frame, i: nat, v: u64, j: nat)
    requires i < 512 && j < 512
    ensures Entry64(PutEntry64(f, i, v), j) == if i == j then v else Entry64(f, j)
  {
    var g := PutWord32(f, 8 * i, Low(v));
    Word32OfPut(f, 8 * i, Low(v), 8 * j);
    Word32OfPut(f, 8 * i, Low(v), 8 * j + 4);
    Word32OfPut(g, 8 * i + 4, High(v), 8 * j);
    Word32OfPut(g, 8 * i + 4, High(v), 8 * j + 4);
  }

  lemma Entry64OfZero(i: nat)
    requires i < 512
    ensures Entry64(ZeroFrame(), i) == 0
  {
  }

  /** Entry `i` of frame `ppn`. */
  function Entry(mem: Mem, ppn: nat, i: nat): u64
    requires i < 512
  {
    if ppn < |mem| then Entry64(mem[ppn], i) else 0
  }

  function PutEntry(mem: Mem, ppn: nat, i: nat, v: u64): Mem
    requires i < 512
  {
    if ppn < |mem| then mem[ppn := PutEntry64(mem[ppn], i, v)] else mem
  }

  lemma EntryOfPut(mem: Mem, ppn: nat, i: nat, v: u64, ppn': nat, j: nat)
    requires i < 512 && j < 512 && ppn < |mem|
    ensures Entry(PutEntry(mem, ppn, i, v), ppn', j) == if ppn == ppn' && i == j then v else Entry(mem, ppn', j)
  {
    Entry64OfPut(mem[ppn], i, v, j);
  }

  lemma PopLast(s: seq<nat>)
    requires Distinct(s) && |s| > 0
    ensures var n := |s| - 1;
            s[n] !in s[..n] && Distinct(s[..n]) && forall q :: q in s <==> q in s[..n] || q == s[n]
  {
    var n := |s| - 1;
    assert s == s[..n] + [s[n]];
  }

  ghost predicate PhysOpened(k: int) { true }

  /** Frames `start..end` are managed; those from `current` on have never been handed out. */
  class PhysMem {
    var mem: Mem
    var current: nat
    var end: nat
    var recycled: seq<nat>
    ghost var start: nat
    /** Frames somebody holds a tracker of. */
    ghost var owned: set<nat>

    /** Never used, recycled and owned frames partition the managed range. */
    ghost predicate Partition()
      reads this
    {
      && start <= current <= end <= |mem| <= 0x1000_0000_0000
      && Distinct(recycled)
      && (forall p :: p in owned || p in recycled <==> start <= p < current)
      && (forall p :: p in recycled ==> p !in owned)
    }

    ghost predicate Valid()
      reads this
    {
      |mem| <= 0x1000_0000_0000 && forall k :: PhysOpened(k) ==> Partition()
    }

    ghost function Available(): int
      reads this
    {
      |recycled| + (end - current)
    }

    constructor (frames: Mem, l: nat, r: nat)
      requires l <= r <= |frames| <= 0x1000_0000_0000
      ensures Valid() && mem == frames && start == current == l && end == r && owned == {} && recycled == []
    {
      mem, current, end, recycled, start, owned := frames, l, r, [], l, {};
    }

    /** The frame last given back, or else the next one never used. */
    method Take() returns (r: Option<nat>)
      requires Valid()
      modifies `current, `recycled, `owned
      ensures Valid()
      ensures r == if old(recycled) != [] then Some(old(recycled[|recycled| - 1])) else if old(current == end) then None else Some(old(current))
      ensures if old(recycled) != [] then old(recycled) == recycled + [r.value] && current == old(current)
              else recycled == [] && current == old(current) + (if r.Some? then 1 else 0)
      ensures r.None? ==> Available() == old(Available()) == 0 && owned == old(owned)
      ensures r.Some? ==>
                && start <= r.value < |mem| && r.value !in old(owned) && owned == old(owned) + {r.value}
                && Available() == old(Available()) - 1
    {
      assert PhysOpened(0);
      if |recycled| > 0 {
        var n := |recycled| - 1;
        var p := recycled[n];
        PopLast(recycled);
        recycled := recycled[..n];
        owned := owned + {p};
        return Some(p);
      } else if current == end {
        return None;
      } else {
        current := current + 1;
        owned := owned + {current - 1};
        return Some(current - 1);
      }
    }

    /** `frame_alloc`: a frame nobody owns, cleared; `None` only when there is none left. */
    method FrameAlloc() returns (r: Option<nat>)
      requires Valid()
      modifies this
      ensures Valid() && |mem| == old(|mem|) && start == old(start) && end == old(end)
      ensures r == if old(recycled) != [] then Some(old(recycled[|recycled| - 1])) else if old(current == end) then None else Some(old(current))
      ensures r.None? ==> Available() == old(Available()) == 0 && mem == old(mem) && owned == old(owned)
      ensures r.Some? ==>
                && start <= r.value < |mem| && r.value !in old(owned) && owned == old(owned) + {r.value}
                && mem == old(mem)[r.value := ZeroFrame()] && Available() == old(Available()) - 1
    {
      r := Take();
      if r.Some? {
        var zero := Cleared(mem[r.value]);
        mem := mem[r.value := zero];
      }
    }

    /** Dropping a tracker gives its frame back; the check for frames that are not allocated cannot fail. */
    method FrameDealloc(p: nat)
      requires Valid() && p in owned
      modifies this
      ensures Valid() && mem == old(mem) && owned == old(owned) - {p} && start == old(start) && end == old(end)
      ensures Available() == old(Available()) + 1 && recycled == old(recycled) + [p] && current == old(current)
    {
      assert PhysOpened(0);
      assert p < current && p !in recycled;
      recycled := recycled + [p];
      owned := owned - {p};
    }

    /** Store a page table entry. */
    method SetEntry(ppn: nat, i: nat, v: u64)
      requires Valid() && ppn < |mem| && i < 512
      modifies `mem
      ensures Valid() && mem == PutEntry(old(mem), ppn, i, v)
    {
      mem := mem[ppn := PutEntry64(mem[ppn], i, v)];
    }

    method SetFrame(ppn: nat, f: Frame)
      requires Valid() && ppn < |mem|
      modifies `mem
      ensures Valid() && mem == old(mem)[ppn := f]
    {
      mem := mem[ppn := f];
    }
  }

  /** Page cleaning: every byte is set to zero. */
  method Cleared(f: Frame) returns (z: Frame)
    ensures z == ZeroFrame()
  {
    z := f;
    var i := 0;
    while i < 4096
      invariant 0 <= i <= 4096 && forall x :: 0 <= x < i ==> z[x] == 0
    {
      z := z[i := 0];
      i := i + 1;
    }
  }
}
