/**
 Whole runs of the memory system (os/src/mm): any number of address spaces that fork, map and
 unmap areas, store and load, in any order. Each behaves as a private map from pages to bytes, and
 all frames in use are accounted for.
 */
module MemoryRun {
  import opened Options
  import opened Bytes
  import opened PhysMemory
  import opened PageTable
  import opened Sv39
  import opened MapArea
  import opened MemorySets
  import opened Spaces
  import opened SpaceOps
  import opened UserBuffer

  datatype Op =
    | ForkFrom(k: nat)
    | Insert(k: nat, start: nat, end: nat, perm: nat)
    | Remove(k: nat, start: nat)
    | Write(k: nat, va: nat, x: byte)
    | Load(k: nat, va: nat)

  /** The operation names a space, and does not run into a panic of the source other than for lack of frames. */
  ghost predicate Possible(ws: seq<View>, op: Op) {
    && op.k < |ws|
    && match op
       case ForkFrom(k) => true
       case Insert(k, start, end, perm) => perm < 256 && Vacant(ws[k], start, end)
       case Remove(k, start) => true
       case Write(k, va, x) => va / 4096 in ws[k].pages
       case Load(k, va) => va / 4096 in ws[k].pages
  }

  /** The simple model: a list of views, of which an operation concerns one. */
  ghost function Step(ws: seq<View>, op: Op): (seq<View>, Option<byte>)
    requires Possible(ws, op)
  {
    var k := op.k;
    match op
    case ForkFrom(_) => (ws + [ws[k]], None)
    case Insert(_, start, end, perm) => (ws[k := Inserted(ws[k], start, end, perm)], None)
    case Remove(_, start) => (ws[k := Removed(ws[k], start)], None)
    case Write(_, va, x) => (ws[k := SpaceOps.Stored(ws[k], va, x)], None)
    case Load(_, va) => (ws, Some(ws[k].pages[va / 4096][va % 4096]))
  }

  ghost function Tables(spaces: seq<MemorySet>): set<object> {
    set m | m in spaces :: m.table
  }

  ghost function States(spaces: seq<MemorySet>): (r: seq<Space>)
    reads spaces, Tables(spaces)
    ensures |r| == |spaces| && forall i :: 0 <= i < |spaces| ==> r[i] == StateOf(spaces[i])
  {
    if spaces == [] then []
    else
      var n := |spaces| - 1;
      assert forall i :: 0 <= i < n ==> spaces[..n][i] == spaces[i];
      States(spaces[..n]) + [StateOf(spaces[n])]
  }

  ghost predicate Distinct(spaces: seq<MemorySet>) {
    forall i, j :: 0 <= i < j < |spaces| ==> spaces[i] != spaces[j] && spaces[i].table != spaces[j].table
  }

  /** The spaces show the views `ws`, share no frame and own all frames in use. */
  ghost predicate Holds(pm: PhysMem, spaces: seq<MemorySet>, ws: seq<View>)
    reads pm, spaces, Tables(spaces)
  {
    pm.Valid() && Distinct(spaces) && |spaces| == |ws| && World(pm.mem, pm.owned, States(spaces), ws)
  }

  lemma Show(pm: PhysMem, spaces: seq<MemorySet>, ws: seq<View>, k: nat)
    requires Holds(pm, spaces, ws) && k < |spaces|
    ensures Shows(pm.mem, pm.owned, StateOf(spaces[k]), ws[k])
  {
    WorldAt(pm.mem, pm.owned, States(spaces), ws, k);
  }

  method PerformInsert(pm: PhysMem, spaces: seq<MemorySet>, op: Op, ghost ws: seq<View>) returns (ok: bool)
    requires Holds(pm, spaces, ws) && op.Insert? && Possible(ws, op)
    modifies pm, spaces, Tables(spaces)
    ensures ok ==> Holds(pm, spaces, Step(ws, op).0)
    ensures !ok ==> pm.Available() == 0
  {
    Show(pm, spaces, ws, op.k);
    ghost var mem0, owned0, states := pm.mem, pm.owned, States(spaces);
    ok := InsertArea(pm, spaces[op.k], op.start, op.end, op.perm, ws[op.k]);
    if ok {
      assert States(spaces) == states[op.k := StateOf(spaces[op.k])];
      WorldStep(mem0, owned0, states, ws, op.k, pm.mem, pm.owned, StateOf(spaces[op.k]), Inserted(ws[op.k], op.start, op.end, op.perm));
    }
  }

  method PerformRemove(pm: PhysMem, spaces: seq<MemorySet>, op: Op, ghost ws: seq<View>)
    requires Holds(pm, spaces, ws) && op.Remove? && Possible(ws, op)
    modifies pm, spaces
    ensures Holds(pm, spaces, Step(ws, op).0)
  {
    Show(pm, spaces, ws, op.k);
    ghost var mem0, owned0, states := pm.mem, pm.owned, States(spaces);
    RemoveArea(pm, spaces[op.k], op.start, ws[op.k]);
    assert States(spaces) == states[op.k := StateOf(spaces[op.k])];
    WorldStep(mem0, owned0, states, ws, op.k, pm.mem, pm.owned, StateOf(spaces[op.k]), Removed(ws[op.k], op.start));
  }

  method PerformWrite(pm: PhysMem, spaces: seq<MemorySet>, op: Op, ghost ws: seq<View>)
    requires Holds(pm, spaces, ws) && op.Write? && Possible(ws, op)
    modifies pm`mem
    ensures Holds(pm, spaces, Step(ws, op).0)
  {
    Show(pm, spaces, ws, op.k);
    ghost var mem0, states := pm.mem, States(spaces);
    StoreAt(pm, spaces[op.k], op.va, op.x, ws[op.k]);
    assert States(spaces) == states[op.k := StateOf(spaces[op.k])];
    WorldStep(mem0, pm.owned, states, ws, op.k, pm.mem, pm.owned, StateOf(spaces[op.k]), SpaceOps.Stored(ws[op.k], op.va, op.x));
  }

  method PerformFork(pm: PhysMem, spaces: seq<MemorySet>, op: Op, tramp: nat, ghost ws: seq<View>) returns (spaces': seq<MemorySet>, ok: bool)
    requires Holds(pm, spaces, ws) && op.ForkFrom? && Possible(ws, op) && tramp < PPN_LIMIT
    modifies pm
    ensures ok ==> Holds(pm, spaces', Step(ws, op).0)
    ensures forall m :: m in spaces' ==> m in spaces || (fresh(m) && fresh(m.table))
    ensures !ok ==> pm.Available() == 0
  {
    Show(pm, spaces, ws, op.k);
    ghost var mem0, owned0, states := pm.mem, pm.owned, States(spaces);
    var r := ForkSpace(pm, spaces[op.k], tramp, ws[op.k]);
    ok, spaces' := r.Some?, spaces;
    if r.Some? {
      spaces' := spaces + [r.value];
      assert States(spaces') == states + [StateOf(r.value)];
      WorldGrows(mem0, owned0, states, ws, pm.mem, pm.owned, StateOf(r.value), ws[op.k]);
    }
  }

  /** One operation of a run, on whichever space it names. */
  method Perform(pm: PhysMem, spaces: seq<MemorySet>, op: Op, tramp: nat, ghost ws: seq<View>)
    returns (spaces': seq<MemorySet>, answer: Option<byte>, ok: bool)
    requires Holds(pm, spaces, ws) && Possible(ws, op) && tramp < PPN_LIMIT
    modifies pm, spaces, Tables(spaces)
    ensures ok ==> Holds(pm, spaces', Step(ws, op).0) && answer == Step(ws, op).1
    ensures forall m :: m in spaces' ==> m in spaces || (fresh(m) && fresh(m.table))
    ensures !ok ==> pm.Available() == 0
  {
    spaces', answer, ok := spaces, None, true;
    match op
    case ForkFrom(k) => spaces', ok := PerformFork(pm, spaces, op, tramp, ws);
    case Insert(k, start, end, perm) => ok := PerformInsert(pm, spaces, op, ws);
    case Remove(k, start) => PerformRemove(pm, spaces, op, ws);
    case Write(k, va, x) => PerformWrite(pm, spaces, op, ws);
    case Load(k, va) =>
      Show(pm, spaces, ws, k);
      var x := LoadAt(pm, spaces[k], va, ws[k]);
      answer := Some(x);
  }

  ghost predicate AllPossible(ws: seq<View>, ops: seq<Op>)
    decreases |ops|
  {
    ops != [] ==> Possible(ws, ops[0]) && AllPossible(Step(ws, ops[0]).0, ops[1..])
  }

  /** The model's answers to a run of operations, and the views it ends with. */
  ghost function RunOf(ws: seq<View>, ops: seq<Op>): (r: (seq<View>, seq<Option<byte>>))
    requires AllPossible(ws, ops)
    decreases |ops|
  {
    if ops == [] then (ws, [])
    else
      var (ws1, a) := Step(ws, ops[0]);
      var (ws2, answers) := RunOf(ws1, ops[1..]);
      (ws2, [a] + answers)
  }

  /** The operations `ops` in turn; stops when a frame is needed and none is left. */
  method PerformAll(pm: PhysMem, spaces: seq<MemorySet>, ops: seq<Op>, tramp: nat, ghost ws: seq<View>)
    returns (spaces': seq<MemorySet>, answers: seq<Option<byte>>, ok: bool)
    requires Holds(pm, spaces, ws) && AllPossible(ws, ops) && tramp < PPN_LIMIT
    modifies pm, spaces, Tables(spaces)
    ensures ok ==> Holds(pm, spaces', RunOf(ws, ops).0) && answers == RunOf(ws, ops).1
    ensures !ok ==> pm.Available() == 0 && answers < RunOf(ws, ops).1
    decreases |ops|
  {
    if ops == [] {
      return spaces, [], true;
    }
    var a;
    spaces', a, ok := Perform(pm, spaces, ops[0], tramp, ws);
    answers := [];
    if ok {
      var rest;
      spaces', rest, ok := PerformAll(pm, spaces', ops[1..], tramp, Step(ws, ops[0]).0);
      answers := [a] + rest;
    }
  }

  /**
   From a machine whose frames `l` to `r` are all free, one bare space and any run of
   operations: every load answers as in a private memory of the space, and at the end every
   frame in use belongs to one of the spaces. When frames run out, the answers given until then
   were right.
   */
  method FreshRun(frames: Mem, l: nat, r: nat, tramp: nat, ops: seq<Op>)
    returns (pm: PhysMem, spaces: seq<MemorySet>, answers: seq<Option<byte>>, ok: bool)
    requires l <= r <= |frames| <= PPN_LIMIT && tramp < PPN_LIMIT && AllPossible([View([], map[])], ops)
    ensures ok ==> Holds(pm, spaces, RunOf([View([], map[])], ops).0) && answers == RunOf([View([], map[])], ops).1
    ensures !ok ==> pm.Available() == 0 && answers <= RunOf([View([], map[])], ops).1
  {
    pm := new PhysMem(frames, l, r);
    spaces, answers := [], [];
    var first := BareSpace(pm, tramp);
    ok := first.Some?;
    if ok {
      spaces := [first.value];
      FirstWorld(frames, pm.mem, pm.owned, StateOf(first.value), View([], map[]));
      assert States(spaces) == [StateOf(first.value)];
      spaces, answers, ok := PerformAll(pm, spaces, ops, tramp, [View([], map[])]);
    }
  }

  lemma FirstWorld(mem0: Mem, mem: Mem, owned: set<nat>, s: Space, w: View)
    requires Shows(mem, owned, s, w) && ActsAlone(mem0, {}, mem, owned, {}, s.Footprint())
    ensures World(mem, owned, [s], [w])
  {
    assert World(mem0, {}, [], []);
    WorldGrows(mem0, {}, [], [], mem, owned, s, w);
    assert [] + [s] == [s] && [] + [w] == [w];
  }

  ghost predicate Within(a: Shape, v: nat) {
    a.start <= v < a.end
  }

  /** A page of a space, as the hardware reaches it through the tables. */
  lemma PageReached(mem: Mem, owned: set<nat>, s: Space, w: View, v: nat)
    requires Shows(mem, owned, s, w) && v in w.pages
    ensures Walk(mem, s.root, v).Some?
    ensures var e := Walk(mem, s.root, v).value;
            && FrameOf(e) < |mem| && mem[FrameOf(e)] == w.pages[v]
            && forall k :: 0 <= k < |w.areas| && Within(w.areas[k], v) ==> e % 0x100 / 2 == w.areas[k].perm / 2
    ensures exists k :: 0 <= k < |w.areas| && Within(w.areas[k], v)
  {
    assert SoundOpened(0) && LooksOpened(0);
    var b := TableMap(mem, s.nodes);
    PageBound(b, s.areas, s.data, v);
    WalkFindsBindings(mem, s.root, s.nodes, v);
    assert FrameOf(b[v]) == PtePpn(b[v]) && PteFlags(b[v]) == b[v] % 0x100;
    var k :| 0 <= k < |s.areas| && s.areas[k].Holds(v);
    assert Within(w.areas[k], v);
    forall m | 0 <= m < |w.areas| && Within(w.areas[m], v) ensures b[v] % 0x100 / 2 == w.areas[m].perm / 2 {
      assert s.areas[m].Holds(v);
    }
  }

  /**
   In every state of a run the hardware, walking the tables of space `k` in memory, reaches at every
   address of its areas the byte the model has there, with the permissions of the area, and outside
   them nothing but the trampoline.
   */
  lemma HardwareSees(pm: PhysMem, spaces: seq<MemorySet>, ws: seq<View>, k: nat, va: nat)
    requires Holds(pm, spaces, ws) && k < |spaces| && va / 4096 < VPN_LIMIT
    ensures var w, r := ws[k], Walk(pm.mem, spaces[k].table.root, va / 4096);
            && (va / 4096 in w.pages ==>
                 && r.Some? && FrameOf(r.value) < |pm.mem| && pm.mem[FrameOf(r.value)][va % 4096] == w.pages[va / 4096][va % 4096]
                 && (exists m :: 0 <= m < |w.areas| && Within(w.areas[m], va / 4096))
                 && forall m :: 0 <= m < |w.areas| && Within(w.areas[m], va / 4096) ==> r.value % 0x100 / 2 == w.areas[m].perm / 2)
            && (va / 4096 !in w.pages && va / 4096 != 0x7FF_FFFF ==> r.None?)
  {
    Show(pm, spaces, ws, k);
    var s, v := StateOf(spaces[k]), va / 4096;
    if v in ws[k].pages {
      PageReached(pm.mem, pm.owned, s, ws[k], v);
    } else if v != 0x7FF_FFFF {
      NothingElse(pm.mem, pm.owned, s, ws[k], v);
    }
  }

  /** The bytes at the addresses a user buffer is translated to are those the space has there. */
  lemma BufferBytes(pm: PhysMem, spaces: seq<MemorySet>, ws: seq<View>, k: nat, ptr: nat, len: nat, i: nat)
    requires Holds(pm, spaces, ws) && k < |spaces| && i < len && (ptr + i) / 4096 in ws[k].pages
    ensures var a := PhysAddrs(TableMap(pm.mem, spaces[k].table.nodes), ptr, len)[i];
            a / 4096 < |pm.mem| && pm.mem[a / 4096][a % 4096] == ws[k].pages[(ptr + i) / 4096][(ptr + i) % 4096]
  {
    Show(pm, spaces, ws, k);
    var s, va := StateOf(spaces[k]), ptr + i;
    PageAddress(pm.mem, pm.owned, s, ws[k], va);
  }

  lemma PageAddress(mem: Mem, owned: set<nat>, s: Space, w: View, va: nat)
    requires Shows(mem, owned, s, w) && va / 4096 in w.pages
    ensures var a := PhysAddr(TableMap(mem, s.nodes), va); a / 4096 < |mem| && mem[a / 4096][a % 4096] == w.pages[va / 4096][va % 4096]
  {
    assert SoundOpened(0) && LooksOpened(0);
    var b, v := TableMap(mem, s.nodes), va / 4096;
    PageBound(b, s.areas, s.data, v);
    var f, a := PtePpn(b[v]), PhysAddr(b, va);
    assert a == 4096 * f + va % 4096;
    assert a / 4096 == f && a % 4096 == va % 4096;
  }

  lemma NothingElse(mem: Mem, owned: set<nat>, s: Space, w: View, v: nat)
    requires Shows(mem, owned, s, w) && v !in w.pages && v < VPN_LIMIT && v != 0x7FF_FFFF
    ensures Walk(mem, s.root, v).None?
  {
    assert SoundOpened(0) && LooksOpened(0);
    PagesAll(mem, owned, s.nodes, s.data);
    WalkFindsBindings(mem, s.root, s.nodes, v);
  }

  // ---- What the model says

  /** A byte stored is loaded again, by the space that stored it; every other byte of every space is as before. */
  lemma StoreThenLoad(ws: seq<View>, k: nat, va: nat, x: byte, m: nat, vb: nat)
    requires Possible(ws, Write(k, va, x)) && Possible(ws, Load(m, vb))
    ensures var ws' := Step(ws, Write(k, va, x)).0;
            && Possible(ws', Load(m, vb))
            && Step(ws', Load(m, vb)).1 == if m == k && va == vb then Some(x) else Step(ws, Load(m, vb)).1
  {
    if m == k && va / 4096 == vb / 4096 && va % 4096 == vb % 4096 {
      assert va == vb;
    }
  }

  /** A child has the areas of its parent and reads at first what it reads, and nobody else reads anything new. */
  lemma ForkThenLoad(ws: seq<View>, k: nat, m: nat, va: nat)
    requires k < |ws| && m < |ws|
    ensures var ws' := Step(ws, ForkFrom(k)).0;
            && |ws'| == |ws| + 1 && ws'[|ws|].areas == ws[k].areas && ws'[m].areas == ws[m].areas
            && (Possible(ws', Load(|ws|, va)) <==> Possible(ws, Load(k, va)))
            && (Possible(ws, Load(k, va)) ==> Step(ws', Load(|ws|, va)).1 == Step(ws, Load(k, va)).1)
            && (Possible(ws', Load(m, va)) <==> Possible(ws, Load(m, va)))
            && (Possible(ws, Load(m, va)) ==> Step(ws', Load(m, va)).1 == Step(ws, Load(m, va)).1)
  {
  }

  /** A new area has the pages and permissions asked for and reads as zeros, and the rest is as before. */
  lemma InsertThenLoad(ws: seq<View>, k: nat, start: nat, end: nat, perm: nat, m: nat, va: nat)
    requires Possible(ws, Insert(k, start, end, perm)) && m < |ws|
    ensures var ws' := Step(ws, Insert(k, start, end, perm)).0; var v := va / 4096;
            && |ws'| == |ws| && ws'[m].areas == (if m == k then ws[k].areas + [Shape(start, end, perm)] else ws[m].areas)
            && (Possible(ws', Load(m, va)) <==> Possible(ws, Load(m, va)) || (m == k && start <= v < end))
            && (m == k && start <= v < end ==> Step(ws', Load(m, va)).1 == Some(0))
            && (Possible(ws, Load(m, va)) ==> Step(ws', Load(m, va)).1 == Step(ws, Load(m, va)).1)
  {
  }

  /** Removal takes away the first area that starts there with its pages, and nothing else. */
  lemma RemoveThenLoad(ws: seq<View>, k: nat, start: nat, j: nat, m: nat, va: nat)
    requires k < |ws| && m < |ws| && j < |ws[k].areas| && ws[k].areas[j].start == start
    requires forall i :: 0 <= i < j ==> ws[k].areas[i].start != start
    ensures var ws' := Step(ws, Remove(k, start)).0;
            && |ws'| == |ws| && ws'[m].areas == (if m == k then ws[k].areas[..j] + ws[k].areas[j + 1..] else ws[m].areas)
            && (Possible(ws', Load(m, va)) <==> Possible(ws, Load(m, va)) && !(m == k && Within(ws[k].areas[j], va / 4096)))
            && (Possible(ws', Load(m, va)) ==> Step(ws', Load(m, va)).1 == Step(ws, Load(m, va)).1)
  {
    FirstAtIs(ws[k].areas, start, j);
  }

  /** If no area starts there, nothing happens. */
  lemma RemoveNothing(ws: seq<View>, k: nat, start: nat)
    requires k < |ws| && forall a :: a in ws[k].areas ==> a.start != start
    ensures Step(ws, Remove(k, start)).0 == ws
  {
    FirstAtIs(ws[k].areas, start, |ws[k].areas|);
  }

  /** Every frame in use belongs to exactly one space, and there to the table or to one page. */
  lemma OneOwner(pm: PhysMem, spaces: seq<MemorySet>, ws: seq<View>, q: nat)
    requires Holds(pm, spaces, ws)
    ensures q in pm.owned <==> exists i :: 0 <= i < |spaces| && q in spaces[i].Footprint()
    ensures forall i, j :: 0 <= i < |spaces| && 0 <= j < |spaces| && q in spaces[i].Footprint() && q in spaces[j].Footprint() ==> i == j
    ensures forall i :: 0 <= i < |spaces| && q in spaces[i].table.nodes.Values ==> q !in spaces[i].data.Values
    ensures forall i, v, w ::
              0 <= i < |spaces| && v in spaces[i].data && w in spaces[i].data && spaces[i].data[v] == q == spaces[i].data[w] ==> v == w
  {
    var states := States(spaces);
    assert forall i :: 0 <= i < |spaces| ==> states[i].Footprint() == spaces[i].Footprint();
    forall i | 0 <= i < |spaces|
      ensures spaces[i].Footprint() <= pm.owned && spaces[i].table.nodes.Values !! spaces[i].data.Values
      ensures InjectiveFrames(spaces[i].data)
    {
      Show(pm, spaces, ws, i);
      FootprintOwned(pm.mem, pm.owned, StateOf(spaces[i]));
      TableAndPages(pm.mem, pm.owned, StateOf(spaces[i]));
    }
    forall i, j | 0 <= i < |spaces| && 0 <= j < |spaces| && i != j ensures spaces[i].Footprint() !! spaces[j].Footprint() {
      WorldDisjoint(pm.mem, pm.owned, states, ws, i, j);
    }
    assert WorldOpened(0);
  }

  lemma TableAndPages(mem: Mem, owned: set<nat>, s: Space)
    requires Sound(mem, owned, s)
    ensures s.nodes.Values !! s.data.Values && InjectiveFrames(s.data)
  {
    assert SoundOpened(0);
    assert FramesOpened(0);
    forall f | f in s.data.Values ensures f !in s.nodes.Values {
      var v :| v in s.data && s.data[v] == f;
      FrameAt(|mem|, owned, s.nodes, s.data, v);
    }
  }
}
