/**
 Translation of user buffers (os/src/mm/page_table.rs): a range of user addresses becomes a list
 of slices of frames, and an iterator over their bytes.
 */
module UserBuffer {
  import opened Basics
  import opened Options
  import opened PhysMemory
  import opened PageTable

  const VA_LIMIT: nat := 0x80_0000_0000

  /** Bytes `from..to` of frame `ppn`. */
  datatype Slice = Slice(ppn: nat, from: nat, to: nat)
  {
    predicate Ok() { from < to <= 4096 }

    /** Physical addresses of the bytes of the slice. */
    function Addresses(): (a: seq<nat>)
      requires from <= to
      ensures |a| == to - from && forall j :: 0 <= j < |a| ==> a[j] == 4096 * ppn + from + j
    {
      seq(to - from, j requires 0 <= j < to - from => 4096 * ppn + from + j)
    }
  }

  predicate AllOk(v: seq<Slice>) {
    forall i :: 0 <= i < |v| ==> v[i].Ok()
  }

  function Flatten(v: seq<Slice>): (a: seq<nat>)
    requires AllOk(v)
  {
    if v == [] then [] else Flatten(v[..|v| - 1]) + v[|v| - 1].Addresses()
  }

  /** The physical address a mapped user address stands for. */
  ghost function PhysAddr(b: map<nat, u64>, va: nat): nat {
    if va / 4096 in b then 4096 * PtePpn(b[va / 4096]) + va % 4096 else 0
  }

  ghost function PhysAddrs(b: map<nat, u64>, ptr: nat, n: nat): (a: seq<nat>)
    ensures |a| == n && forall i :: 0 <= i < n ==> a[i] == PhysAddr(b, ptr + i)
  {
    seq<nat>(n, i requires 0 <= i < n => PhysAddr(b, ptr + i))
  }

  /** `start` of the next round of the translation loop; addresses are cut to 39 bits on the way. */
  function NextStart(start: nat, end: nat): nat {
    Min((start % VA_LIMIT / 4096 + 1) * 4096, end % VA_LIMIT)
  }

  /**
   The loop makes progress towards `end` exactly for ranges ending below 2^39: beyond, `start`
   never reaches `end`.
   */
  lemma LoopProgress(start: nat, end: nat)
    requires start < end
    ensures end < VA_LIMIT ==> start < NextStart(start, end) <= end && start % VA_LIMIT == start
    ensures end >= VA_LIMIT ==> NextStart(start, end) < end
  {
    if end < VA_LIMIT {
      assert start % VA_LIMIT == start && end % VA_LIMIT == end;
    }
  }

  /** One round of the translation loop: the bytes from `start` on that lie in its page. */
  method NextSlice(pm: PhysMem, table: Table, start: nat, end: nat) returns (s: Slice, next: nat)
    requires table.Valid(pm) && start < end < VA_LIMIT && start / 4096 in table.Bindings(pm)
    ensures next == NextStart(start, end) && s.ppn == PtePpn(table.Bindings(pm)[start / 4096])
    ensures s.from == start % 4096 && s.to == if next % 4096 == 0 then 4096 else next % 4096
  {
    LoopProgress(start, end);
    var vpn := start % VA_LIMIT / 4096;
    var pte := table.Translate(pm, vpn);
    next := NextStart(start, end);
    s := Slice(PtePpn(pte.value), start % 4096, if next % 4096 == 0 then 4096 else next % 4096);
  }

  /** The slices are non-empty, lie in one page each, and list exactly the bytes of the range in order. */
  method TranslatedByteBuffer(pm: PhysMem, table: Table, ptr: nat, len: nat) returns (v: seq<Slice>)
    requires table.Valid(pm) && ptr + len < VA_LIMIT
    requires forall va :: ptr <= va < ptr + len ==> va / 4096 in table.Bindings(pm)
    ensures AllOk(v) && Flatten(v) == PhysAddrs(table.Bindings(pm), ptr, len)
    ensures forall i :: 0 <= i < |v| ==> v[i].from < v[i].to <= 4096
  {
    var start, end := ptr, ptr + len;
    v := [];
    while start < end
      invariant ptr <= start <= end && AllOk(v) && Flatten(v) == PhysAddrs(table.Bindings(pm), ptr, start - ptr)
      decreases end - start
    {
      LoopProgress(start, end);
      var s, next := NextSlice(pm, table, start, end);
      SliceOfPage(table.Bindings(pm), ptr, start, end, s);
      assert (v + [s])[..|v|] == v;
      v := v + [s];
      start := next;
    }
  }

  lemma SliceOfPage(b: map<nat, u64>, ptr: nat, start: nat, end: nat, s: Slice)
    requires ptr <= start < end < VA_LIMIT && start / 4096 in b && s.ppn == PtePpn(b[start / 4096])
    requires s.from == start % 4096
    requires s.to == if NextStart(start, end) % 4096 == 0 then 4096 else NextStart(start, end) % 4096
    ensures s.Ok()
    ensures PhysAddrs(b, ptr, start - ptr) + s.Addresses() == PhysAddrs(b, ptr, NextStart(start, end) - ptr)
  {
    LoopProgress(start, end);
    var next, page := NextStart(start, end), start / 4096;
    assert start == 4096 * page + start % 4096;
    assert start < next <= 4096 * page + 4096;
    assert s.to == next - 4096 * page by {
      if next < 4096 * page + 4096 {
        assert next / 4096 == page;
      }
    }
    forall j | 0 <= j < s.to - s.from ensures PhysAddr(b, start + j) == s.Addresses()[j] {
      assert (start + j) / 4096 == page && (start + j) % 4096 == start % 4096 + j;
    }
  }

  ghost predicate VisitedOpened(k: int) { true }

  class UserBufferIterator {
    const buffers: seq<Slice>
    var currentBuffer: nat
    var currentIdx: nat
    /** Addresses handed out so far. */
    ghost var visited: seq<nat>

    ghost predicate Valid()
      reads this
    {
      && AllOk(buffers) && currentBuffer <= |buffers|
      && (currentBuffer == |buffers| ==> currentIdx == 0)
      && (currentBuffer < |buffers| ==> currentIdx < buffers[currentBuffer].to - buffers[currentBuffer].from)
      && forall k :: VisitedOpened(k) ==> visited == Before(buffers, currentBuffer, currentIdx)
    }

    constructor (b: seq<Slice>)
      requires AllOk(b)
      ensures Valid() && buffers == b && visited == []
    {
      buffers, currentBuffer, currentIdx, visited := b, 0, 0, [];
    }

    /** `next`: the address of the next byte, and `None` exactly when all have been handed out. */
    method Next() returns (r: Option<nat>)
      requires Valid()
      modifies this
      ensures Valid() && old(visited) <= Flatten(buffers) && visited <= Flatten(buffers)
      ensures r.None? <==> old(visited) == Flatten(buffers)
      ensures r.None? ==> visited == old(visited)
      ensures r.Some? ==> visited == old(visited) + [r.value]
    {
      assert VisitedOpened(0);
      VisitedPrefix(buffers, currentBuffer, currentIdx);
      if currentBuffer >= |buffers| {
        VisitedAll(buffers, currentIdx);
        return None;
      }
      var s := buffers[currentBuffer];
      var p := 4096 * s.ppn + s.from + currentIdx;
      VisitedStep(buffers, currentBuffer, currentIdx, p);
      visited := visited + [p];
      if currentIdx + 1 == s.to - s.from {
        currentIdx := 0;
        currentBuffer := currentBuffer + 1;
      } else {
        currentIdx := currentIdx + 1;
      }
      VisitedPrefix(buffers, currentBuffer, currentIdx);
      r := Some(p);
    }
  }

  /** Addresses before position `(k, i)`. */
  ghost function Before(b: seq<Slice>, k: nat, i: nat): seq<nat>
    requires AllOk(b) && k <= |b| && (k < |b| ==> i < b[k].to - b[k].from)
  {
    Flatten(b[..k]) + (if k < |b| then b[k].Addresses()[..i] else [])
  }

  lemma {:induction false} FlattenPrefix(b: seq<Slice>, k: nat)
    requires AllOk(b) && k <= |b|
    ensures Flatten(b[..k]) <= Flatten(b)
    decreases |b| - k
  {
    if k == |b| {
      assert b[..k] == b;
    } else {
      assert b[..k + 1][..k] == b[..k];
      FlattenPrefix(b, k + 1);
    }
  }

  lemma VisitedPrefix(b: seq<Slice>, k: nat, i: nat)
    requires AllOk(b) && k <= |b| && (k < |b| ==> i < b[k].to - b[k].from)
    ensures Before(b, k, i) <= Flatten(b) && (k < |b| ==> |Before(b, k, i)| < |Flatten(b)|)
  {
    if k < |b| {
      var whole, part := Flatten(b[..k + 1]), Before(b, k, i);
      assert part <= whole && |part| < |whole| by { BeforeInSlice(b, k, i); }
      assert whole <= Flatten(b) by { FlattenPrefix(b, k + 1); }
    } else {
      VisitedAll(b, i);
    }
  }

  lemma VisitedAll(b: seq<Slice>, i: nat)
    requires AllOk(b)
    ensures Before(b, |b|, i) == Flatten(b)
  {
    assert b[..|b|] == b;
  }

  lemma BeforeInSlice(b: seq<Slice>, k: nat, i: nat)
    requires AllOk(b) && k < |b| && i < b[k].to - b[k].from
    ensures Before(b, k, i) <= Flatten(b[..k + 1]) && |Before(b, k, i)| < |Flatten(b[..k + 1])|
  {
    assert b[..k + 1][..k] == b[..k];
  }

  lemma VisitedStep(b: seq<Slice>, k: nat, i: nat, p: nat)
    requires AllOk(b) && k < |b| && i < b[k].to - b[k].from && p == 4096 * b[k].ppn + b[k].from + i
    ensures Before(b, k, i) + [p] == if i + 1 == b[k].to - b[k].from then Before(b, k + 1, 0) else Before(b, k, i + 1)
  {
    var a := b[k].Addresses();
    assert a[i] == 4096 * b[k].ppn + b[k].from + i && a[..i] + [a[i]] == a[..i + 1];
    if i + 1 == |a| {
      assert a[..i + 1] == a;
      SliceDone(b, k);
    }
  }

  lemma SliceDone(b: seq<Slice>, k: nat)
    requires AllOk(b) && k < |b|
    ensures Before(b, k + 1, 0) == Flatten(b[..k]) + b[k].Addresses()
  {
    assert b[..k + 1][..k] == b[..k];
    if k + 1 < |b| {
      assert b[k + 1].Addresses()[..0] == [];
    }
  }

  /** Iterating over a translated range visits the bytes `ptr, ptr + 1, ..` and ends. */
  method VisitAll(pm: PhysMem, table: Table, ptr: nat, len: nat) returns (addresses: seq<nat>)
    requires table.Valid(pm) && ptr + len < VA_LIMIT
    requires forall va :: ptr <= va < ptr + len ==> va / 4096 in table.Bindings(pm)
    ensures addresses == PhysAddrs(table.Bindings(pm), ptr, len)
  {
    var slices := TranslatedByteBuffer(pm, table, ptr, len);
    var it := new UserBufferIterator(slices);
    addresses := [];
    while true
      invariant it.Valid() && it.buffers == slices && addresses == it.visited && fresh(it)
      invariant addresses <= Flatten(slices)
      decreases |Flatten(slices)| - |addresses|
    {
      var r := it.Next();
      if r.None? {
        break;
      }
      addresses := addresses + [r.value];
    }
  }
}
