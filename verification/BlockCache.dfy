/**
 The write-back block cache (easy-fs/src/block_cache.rs) over one block device.

 `View` is what a client sees of a block: the cached copy when there is one, the device
 otherwise. `pins` counts the handles to an entry held outside the queue, so
 `Arc::strong_count` of an entry is `1 + pins`.
 */
module BlockCache {
  import opened Bytes

  datatype Entry = Entry(id: nat, cache: Block, modified: bool, pins: nat)

  /**
   A definition of the form `forall k :: Opened(k) ==> P` says `P`, but only a proof that mentions
   `Opened` looks inside it. It keeps the invariant of the cache out of the proofs of its clients;
   other layers do the same with predicates of their own.
   */
  ghost predicate Opened(k: int) { true }

  const CACHE_SIZE: nat := 16

  /** Position of the entry for block `b`, or `|q|` when there is none. */
  function Find(q: seq<Entry>, b: nat): (k: nat)
    ensures k <= |q|
    ensures k < |q| ==> q[k].id == b
    ensures forall j :: 0 <= j < k ==> q[j].id != b
  {
    if q == [] then 0 else if q[0].id == b then 0 else 1 + Find(q[1..], b)
  }

  /** Position of the oldest entry that only the queue refers to, or `|q|`. */
  function FirstUnpinned(q: seq<Entry>): (k: nat)
    ensures k <= |q|
    ensures k < |q| ==> q[k].pins == 0
    ensures forall j :: 0 <= j < k ==> q[j].pins > 0
  {
    if q == [] then 0 else if q[0].pins == 0 then 0 else 1 + FirstUnpinned(q[1..])
  }

  function BlockView(disk: seq<Block>, q: seq<Entry>, b: nat): Block
    requires b < |disk|
  {
    var k := Find(q, b);
    if k < |q| then q[k].cache else disk[b]
  }

  ghost predicate UniqueIds(q: seq<Entry>) {
    forall i, j :: 0 <= i < j < |q| ==> q[i].id != q[j].id
  }

  ghost predicate Coherent(disk: seq<Block>, q: seq<Entry>) {
    && UniqueIds(q)
    && (forall k :: 0 <= k < |q| ==> q[k].id < |disk|)
    && (forall k :: 0 <= k < |q| && !q[k].modified ==> q[k].cache == disk[q[k].id])
  }

  ghost function PinnedIn(q: seq<Entry>): set<nat> {
    set k | 0 <= k < |q| && q[k].pins > 0 :: q[k].id
  }

  ghost function Ids(q: seq<Entry>): set<nat> {
    set k | 0 <= k < |q| :: q[k].id
  }

  lemma {:induction false} IdsCount(q: seq<Entry>)
    requires UniqueIds(q)
    ensures |Ids(q)| == |q|
  {
    if q != [] {
      var n := |q| - 1;
      IdsCount(q[..n]);
      assert Ids(q) == Ids(q[..n]) + {q[n].id};
      assert q[n].id !in Ids(q[..n]);
    } else {
      assert Ids(q) == {};
    }
  }

  /** Fewer pinned blocks than cache slots means a full cache has a victim: no "Run out of BlockCache!". */
  lemma VictimExists(q: seq<Entry>)
    requires UniqueIds(q) && |q| == CACHE_SIZE && |PinnedIn(q)| < CACHE_SIZE
    ensures FirstUnpinned(q) < |q|
  {
    if FirstUnpinned(q) == |q| {
      AllPinned(q);
      IdsCount(q);
    }
  }

  lemma AllPinned(q: seq<Entry>)
    requires FirstUnpinned(q) == |q|
    ensures PinnedIn(q) == Ids(q)
  {
  }

  /** The device after the entry at `v` is dropped: a modified entry is written back. */
  function WriteBack(disk: seq<Block>, e: Entry): seq<Block>
    requires e.id < |disk|
  {
    if e.modified then disk[e.id := e.cache] else disk
  }

  lemma FindUnique(q: seq<Entry>, k: nat)
    requires UniqueIds(q) && k < |q|
    ensures Find(q, q[k].id) == k
  {
  }

  /** Dropping an entry, with its write-back, leaves every block as clients saw it. */
  lemma EvictKeepsView(disk: seq<Block>, q: seq<Entry>, v: nat, b: nat)
    requires Coherent(disk, q) && v < |q| && b < |disk|
    ensures BlockView(WriteBack(disk, q[v]), q[..v] + q[v + 1..], b) == BlockView(disk, q, b)
  {
    var q' := q[..v] + q[v + 1..];
    EvictCoherent(disk, q, v);
    if b == q[v].id {
      EvictMisses(q, v);
      FindUnique(q, v);
    } else if Find(q, b) < |q| {
      var k := Find(q, b);
      var k' := if k < v then k else k - 1;
      assert q'[k'] == q[k];
      FindUnique(q', k');
    }
  }

  lemma EvictMisses(q: seq<Entry>, v: nat)
    requires UniqueIds(q) && v < |q|
    ensures Find(q[..v] + q[v + 1..], q[v].id) == |q| - 1
  {
  }

  lemma EvictCoherent(disk: seq<Block>, q: seq<Entry>, v: nat)
    requires Coherent(disk, q) && v < |q|
    ensures Coherent(WriteBack(disk, q[v]), q[..v] + q[v + 1..])
  {
    var q' := q[..v] + q[v + 1..];
    assert forall j :: 0 <= j < |q'| ==> q'[j] == q[if j < v then j else j + 1];
  }

  lemma ReplaceView(disk: seq<Block>, q: seq<Entry>, k: nat, e: Entry, b: nat)
    requires UniqueIds(q) && k < |q| && e.id == q[k].id && b < |disk|
    ensures BlockView(disk, q[k := e], b) == if b == e.id then e.cache else BlockView(disk, q, b)
  {
    var q' := q[k := e];
    FindUnique(q', k);
    if Find(q, b) < |q| {
      FindUnique(q', Find(q, b));
    }
  }

  lemma AppendView(disk: seq<Block>, q: seq<Entry>, e: Entry, b: nat)
    requires UniqueIds(q + [e]) && b < |disk| && e.id < |disk| && e.cache == disk[e.id]
    ensures BlockView(disk, q + [e], b) == BlockView(disk, q, b)
  {
    var q' := q + [e];
    FindUnique(q', |q|);
    if Find(q, b) < |q| {
      FindUnique(q', Find(q, b));
    }
  }

  /** What clients see of every block of the device. */
  ghost function ViewOf(disk: seq<Block>, q: seq<Entry>): (v: seq<Block>)
    ensures |v| == |disk|
    ensures forall b :: 0 <= b < |disk| ==> v[b] == BlockView(disk, q, b)
  {
    seq(|disk|, b requires 0 <= b < |disk| => BlockView(disk, q, b))
  }

  lemma ReplaceKeepsView(disk: seq<Block>, q: seq<Entry>, k: nat, e: Entry)
    requires UniqueIds(q) && k < |q| && e.id == q[k].id < |disk|
    ensures ViewOf(disk, q[k := e]) == ViewOf(disk, q)[e.id := e.cache]
    ensures e.cache == q[k].cache ==> ViewOf(disk, q[k := e]) == ViewOf(disk, q)
  {
    var v, v' := ViewOf(disk, q)[e.id := e.cache], ViewOf(disk, q[k := e]);
    forall x | 0 <= x < |disk| ensures v'[x] == v[x] {
      ReplaceView(disk, q, k, e, x);
    }
    FindUnique(q, k);
  }

  lemma AppendKeepsView(disk: seq<Block>, q: seq<Entry>, e: Entry)
    requires UniqueIds(q) && Find(q, e.id) == |q| && e.id < |disk| && e.cache == disk[e.id]
    ensures UniqueIds(q + [e]) && ViewOf(disk, q + [e]) == ViewOf(disk, q)
  {
    forall x | 0 <= x < |disk| ensures BlockView(disk, q + [e], x) == BlockView(disk, q, x) {
      AppendView(disk, q, e, x);
    }
  }

  lemma SyncKeepsView(disk: seq<Block>, q: seq<Entry>, k: nat)
    requires Coherent(disk, q) && k < |q|
    ensures var q', disk' := q[k := q[k].(modified := false)], WriteBack(disk, q[k]);
            Coherent(disk', q') && ViewOf(disk', q') == ViewOf(disk, q)
  {
    var e := q[k].(modified := false);
    forall x | 0 <= x < |disk| ensures BlockView(WriteBack(disk, q[k]), q[k := e], x) == BlockView(disk, q, x) {
      ReplaceView(disk, q, k, e, x);
      FindUnique(q, k);
    }
  }

  lemma SyncedView(disk: seq<Block>, q: seq<Entry>)
    requires forall j :: 0 <= j < |q| ==> q[j].id < |disk| && q[j].cache == disk[q[j].id]
    ensures ViewOf(disk, q) == disk
  {
  }

  lemma PinnedAfterReplace(q: seq<Entry>, k: nat, e: Entry)
    requires UniqueIds(q) && k < |q| && e.id == q[k].id
    ensures PinnedIn(q[k := e]) == PinnedIn(q) - {e.id} + (if e.pins > 0 then {e.id} else {})
  {
    var q' := q[k := e];
    forall x ensures x in PinnedIn(q') <==> x in PinnedIn(q) - {e.id} + (if e.pins > 0 then {e.id} else {}) {
      if x == e.id {
        assert q'[k].id == x;
      } else if x in PinnedIn(q) {
        var j :| 0 <= j < |q| && q[j].pins > 0 && q[j].id == x;
        assert q'[j] == q[j];
      }
    }
  }

  lemma PinnedAfterDrop(q: seq<Entry>, v: nat)
    requires v < |q| && q[v].pins == 0
    ensures PinnedIn(q[..v] + q[v + 1..]) == PinnedIn(q)
  {
    var q' := q[..v] + q[v + 1..];
    forall x | x in PinnedIn(q) ensures x in PinnedIn(q') {
      var j :| 0 <= j < |q| && q[j].pins > 0 && q[j].id == x;
      assert q'[if j < v then j else j - 1] == q[j];
    }
  }

  lemma PinnedAfterAppend(q: seq<Entry>, e: Entry)
    requires e.pins > 0
    ensures PinnedIn(q + [e]) == PinnedIn(q) + {e.id}
  {
    var q' := q + [e];
    forall x | x in PinnedIn(q) + {e.id} ensures x in PinnedIn(q') {
      if x in PinnedIn(q) {
        var j :| 0 <= j < |q| && q[j].pins > 0 && q[j].id == x;
        assert q'[j] == q[j];
      } else {
        assert q'[|q|] == e;
      }
    }
  }

  ghost predicate Exclusive(q: seq<Entry>) {
    forall k :: 0 <= k < |q| ==> q[k].pins <= 1
  }

  /** The queue after `get_block_cache(b)`, where `loaded` is what the device holds, read on a miss. */
  function Fetched(q: seq<Entry>, b: nat, loaded: Block): seq<Entry> {
    var k, v := Find(q, b), FirstUnpinned(q);
    if k < |q| then q[k := q[k].(pins := q[k].pins + 1)]
    else (if |q| < CACHE_SIZE || v == |q| then q else q[..v] + q[v + 1..]) + [Entry(b, loaded, false, 1)]
  }

  /** A block that is cached stays where it is; one that is not comes last, and of a full queue the oldest entry nobody holds goes. */
  lemma OldestGoes(q: seq<Entry>, b: nat, loaded: Block, k: nat)
    requires k < |q| <= CACHE_SIZE && UniqueIds(q)
    ensures q[k].id == b ==> Fetched(q, b, loaded) == q[k := Entry(b, q[k].cache, q[k].modified, q[k].pins + 1)]
    ensures (forall e :: e in q ==> e.id != b) && |q| < 16 ==> Fetched(q, b, loaded) == q + [Entry(b, loaded, false, 1)]
    ensures (forall e :: e in q ==> e.id != b) && |q| == 16 && q[k].pins == 0 && (forall e :: e in q[..k] ==> e.pins > 0) ==>
              Fetched(q, b, loaded) == q[..k] + q[k + 1..] + [Entry(b, loaded, false, 1)]
  {
    if q[k].id == b {
      FindUnique(q, k);
    } else if (forall e :: e in q ==> e.id != b) && |q| == 16 && q[k].pins == 0 && forall e :: e in q[..k] ==> e.pins > 0 {
      UnpinnedAt(q, k);
    }
  }

  lemma UnpinnedAt(q: seq<Entry>, k: nat)
    requires k < |q| && q[k].pins == 0 && forall e :: e in q[..k] ==> e.pins > 0
    ensures FirstUnpinned(q) == k
  {
    forall j | 0 <= j < k ensures q[j].pins > 0 {
      assert q[..k][j] == q[j];
    }
  }

  lemma FetchedExclusive(q: seq<Entry>, b: nat, loaded: Block)
    requires UniqueIds(q) && Exclusive(q) && b !in PinnedIn(q)
    ensures Exclusive(Fetched(q, b, loaded))
  {
    assert forall k :: 0 <= k < |q| && q[k].id == b ==> q[k].pins == 0;
  }

  class BlockCacheManager {
    var disk: seq<Block>
    var queue: seq<Entry>

    /** What clients see of every block of the device. */
    ghost var view: seq<Block>
    /** The blocks whose entry, and so whose lock, somebody holds. */
    ghost var pinned: set<nat>

    ghost predicate Valid()
      reads this
    {
      |queue| <= CACHE_SIZE && Coherent(disk, queue) && view == ViewOf(disk, queue) && pinned == PinnedIn(queue)
    }

    /** The invariant, with every entry held at most once: a handle is always taken together with its lock. */
    ghost predicate Ready()
      reads this
    {
      forall k :: Opened(k) ==> Valid() && Exclusive(queue)
    }

    /** The device holds what clients see. */
    ghost predicate Synced()
      reads this
    {
      disk == view
    }

    constructor (device: seq<Block>)
      ensures Ready() && view == device && pinned == {}
      ensures Synced() && queue == []
    {
      disk := device;
      queue := [];
      view := device;
      pinned := {};
    }

    /**
     Hand out a pinned entry for block `b`, loading it when it is not cached and then, when the
     queue is full, first dropping the oldest entry nobody else refers to. The last
     precondition is the absence of the panic.
     */
    method GetBlockCache(b: nat)
      requires Valid() && b < |disk|
      requires Find(queue, b) < |queue| || |queue| < CACHE_SIZE || FirstUnpinned(queue) < |queue|
      modifies this
      ensures Valid()
      ensures view == old(view)
      ensures queue == Fetched(old(queue), b, old(disk)[b])
      ensures disk == if old(Find(queue, b) < |queue| || |queue| < CACHE_SIZE) then old(disk) else WriteBack(old(disk), old(queue[FirstUnpinned(queue)]))
      ensures pinned == old(pinned) + {b}
      ensures old(Synced()) ==> Synced()
    {
      var k := Find(queue, b);
      if k < |queue| {
        Share(k);
      } else {
        if |queue| == CACHE_SIZE {
          Evict(FirstUnpinned(queue), b);
        }
        Load(b);
      }
    }

    /** Another handle to the entry at `k`. */
    method Share(k: nat)
      requires Valid() && k < |queue|
      modifies this
      ensures Valid() && disk == old(disk)
      ensures queue == old(queue)[k := old(queue)[k].(pins := old(queue)[k].pins + 1)]
      ensures view == old(view) && pinned == old(pinned) + {queue[k].id}
    {
      var e := queue[k].(pins := queue[k].pins + 1);
      ReplaceKeepsView(disk, queue, k, e);
      PinnedAfterReplace(queue, k, e);
      queue := queue[k := e];
      pinned := pinned + {e.id};
    }

    /** Load block `b` into memory and push it back. */
    method Load(b: nat)
      requires Valid() && b < |disk| && Find(queue, b) == |queue| < CACHE_SIZE
      modifies this
      ensures Valid() && disk == old(disk)
      ensures queue == old(queue) + [Entry(b, disk[b], false, 1)]
      ensures view == old(view) && pinned == old(pinned) + {b}
    {
      var e := Entry(b, disk[b], false, 1);
      AppendKeepsView(disk, queue, e);
      PinnedAfterAppend(queue, e);
      queue := queue + [e];
      pinned := pinned + {b};
    }

    /** `queue.drain(v..=v)` and the write-back done by dropping the entry. */
    method Evict(v: nat, ghost wanted: nat)
      requires Valid() && v < |queue| && queue[v].pins == 0
      requires wanted < |disk| && Find(queue, wanted) == |queue|
      modifies this
      ensures Valid() && |disk| == old(|disk|)
      ensures queue == old(queue)[..v] + old(queue)[v + 1..]
      ensures disk == WriteBack(old(disk), old(queue)[v])
      ensures view == old(view) && pinned == old(pinned)
      ensures Find(queue, wanted) == |queue| && disk[wanted] == old(disk)[wanted]
      ensures old(Synced()) ==> Synced()
    {
      FindUnique(queue, v);
      EvictCoherent(disk, queue, v);
      forall b | 0 <= b < |disk|
        ensures BlockView(WriteBack(disk, queue[v]), queue[..v] + queue[v + 1..], b) == BlockView(disk, queue, b)
      {
        EvictKeepsView(disk, queue, v, b);
      }
      PinnedAfterDrop(queue, v);
      disk := WriteBack(disk, queue[v]);
      queue := queue[..v] + queue[v + 1..];
    }

    /** `get_block_cache(b).lock()`: the spin lock of an entry that is already held would never be obtained. */
    method Lock(b: nat)
      requires Ready() && b < |view| && b !in pinned && |pinned| < CACHE_SIZE
      modifies this
      ensures Ready() && view == old(view) && (old(Synced()) ==> Synced())
      ensures pinned == old(pinned) + {b}
    {
      assert Opened(0);
      if |queue| == CACHE_SIZE {
        VictimExists(queue);
      }
      FetchedExclusive(queue, b, disk[b]);
      GetBlockCache(b);
    }

    /** The guard and the handle returned by `Lock` go out of scope. */
    method Unlock(b: nat)
      requires Ready() && b in pinned
      modifies this
      ensures Ready() && view == old(view) && (old(Synced()) ==> Synced())
      ensures pinned == old(pinned) - {b}
    {
      assert Opened(0);
      var k := Find(queue, b);
      FindUnique(queue, k);
      Update(k, queue[k].(pins := 0));
    }

    /** `BlockCache::read` of a locked block. */
    method Read(b: nat) returns (block: Block)
      requires Ready() && b in pinned && b < |view|
      ensures block == view[b]
    {
      assert Opened(0);
      var k := Find(queue, b);
      block := queue[k].cache;
    }

    /** `BlockCache::modify` of a locked block: the client sees the new contents, and only there. */
    method Write(b: nat, block: Block)
      requires Ready() && b in pinned && b < |view|
      modifies this
      ensures Ready() && view == old(view)[b := block]
      ensures pinned == old(pinned)
    {
      assert Opened(0);
      var k := Find(queue, b);
      Update(k, queue[k].(cache := block, modified := true));
    }

    method Update(k: nat, e: Entry)
      requires Valid() && Exclusive(queue) && k < |queue| && e.id == queue[k].id && e.pins <= 1
      requires (e.cache == queue[k].cache && e.modified == queue[k].modified) || e.modified
      modifies this
      ensures Valid() && Exclusive(queue) && disk == old(disk) && queue == old(queue)[k := e]
      ensures view == old(view)[e.id := e.cache]
      ensures pinned == old(pinned) - {e.id} + (if e.pins > 0 then {e.id} else {})
    {
      ReplaceKeepsView(disk, queue, k, e);
      PinnedAfterReplace(queue, k, e);
      queue := queue[k := e];
      view := view[e.id := e.cache];
      pinned := pinned - {e.id} + (if e.pins > 0 then {e.id} else {});
    }

    /** `block_cache_sync_all`: every lock is free, and afterwards the device is what clients see and no entry is modified. */
    method SyncAll()
      requires Ready() && pinned == {}
      modifies this
      ensures Ready() && view == old(view) && pinned == {}
      ensures Synced()
      ensures |queue| == old(|queue|) && forall j :: 0 <= j < |queue| ==> queue[j] == old(queue)[j].(modified := false)
    {
      assert Opened(0);
      var i := 0;
      while i < |queue|
        invariant 0 <= i <= |queue| == old(|queue|)
        invariant Valid() && Exclusive(queue) && pinned == {} && view == old(view)
        invariant forall j :: 0 <= j < i ==> queue[j].cache == disk[queue[j].id]
        invariant forall j :: 0 <= j < |queue| ==> queue[j] == if j < i then old(queue)[j].(modified := false) else old(queue)[j]
      {
        var e := queue[i];
        SyncKeepsView(disk, queue, i);
        PinnedAfterReplace(queue, i, e.(modified := false));
        disk := WriteBack(disk, e);
        queue := queue[i := e.(modified := false)];
        i := i + 1;
      }
      SyncedView(disk, queue);
    }
  }
}
