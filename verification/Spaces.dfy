/**
 Any number of address spaces living together (os/src/mm): what holds of all of them at once, as
 plain values. Each space shows the contents a simple model gives it, no frame belongs to two of
 them or to two pages of one, and every frame in use belongs to some space.
 */
module Spaces {
  import opened PhysMemory
  import opened PageTable
  import opened MapArea
  import opened MemorySets
  import opened Fork

  /** An address space as plain data: its table, its areas and the frame behind each page. */
  datatype Space = Space(root: nat, frames: seq<nat>, nodes: map<Path, nat>, areas: seq<Area>, data: map<nat, nat>)
  {
    ghost function Footprint(): set<nat> {
      nodes.Values + data.Values
    }
  }

  datatype Shape = Shape(start: nat, end: nat, perm: nat)

  function ShapeOf(a: Area): Shape {
    Shape(a.start, a.end, a.perm)
  }

  /** What a program can see of its address space: the areas and the bytes of their pages. */
  datatype View = View(areas: seq<Shape>, pages: map<nat, Frame>)

  ghost predicate SoundOpened(k: int) { true }

  /** The space `s` is sound in this memory, with the trampoline as the only page outside its areas. */
  ghost predicate Sound(mem: Mem, owned: set<nat>, s: Space) {
    forall k :: SoundOpened(k) ==>
      && Tree(mem, s.root, s.nodes) && Tracks(s.frames, s.nodes) && s.nodes.Values <= owned
      && AreasOk(TableMap(mem, s.nodes), s.areas, s.data) && FramesOk(|mem|, owned, s.nodes, s.data)
      && TableMap(mem, s.nodes).Keys == s.data.Keys + {TRAMPOLINE} && TRAMPOLINE !in s.data
  }

  ghost predicate LooksOpened(k: int) { true }

  /** What it shows is `w`. */
  ghost predicate Looks(mem: Mem, s: Space, w: View) {
    forall k :: LooksOpened(k) ==>
      && |w.areas| == |s.areas| && (forall i :: 0 <= i < |s.areas| ==> w.areas[i] == ShapeOf(s.areas[i]))
      && Contents(mem, s.data) == w.pages
  }

  ghost predicate Shows(mem: Mem, owned: set<nat>, s: Space, w: View) {
    Sound(mem, owned, s) && Looks(mem, s, w)
  }

  /** A space owns its frames. */
  lemma FootprintOwned(mem: Mem, owned: set<nat>, s: Space)
    requires Sound(mem, owned, s)
    ensures s.Footprint() <= owned
  {
    assert SoundOpened(0);
    forall f | f in s.data.Values ensures f in owned {
      var v :| v in s.data && s.data[v] == f;
      FrameAt(|mem|, owned, s.nodes, s.data, v);
    }
  }

  lemma PagesStill(mem0: Mem, owned0: set<nat>, mem: Mem, owned: set<nat>, nodes: map<Path, nat>, data: map<nat, nat>)
    requires FramesOk(|mem0|, owned0, nodes, data) && |mem| == |mem0|
    requires forall q :: q in data.Values ==> q in owned && (q < |mem| ==> mem[q] == mem0[q])
    ensures FramesOk(|mem|, owned, nodes, data) && Contents(mem, data) == Contents(mem0, data)
  {
    forall v | v in data ensures data[v] in owned && data[v] !in nodes.Values && data[v] < |mem| && mem[data[v]] == mem0[data[v]] {
      FrameAt(|mem0|, owned0, nodes, data, v);
      assert data[v] in data.Values;
    }
    FramesFrame(|mem|, owned0, owned, nodes, nodes, data);
  }

  lemma TableStill(mem0: Mem, mem: Mem, root: nat, nodes: map<Path, nat>)
    requires Tree(mem0, root, nodes) && |mem| == |mem0|
    requires forall q :: q in nodes.Values ==> (q < |mem| ==> mem[q] == mem0[q])
    ensures Tree(mem, root, nodes) && TableMap(mem, nodes) == TableMap(mem0, nodes)
  {
    forall p | p in nodes && nodes[p] < |mem0| ensures mem[nodes[p]] == mem0[nodes[p]] {
      assert nodes[p] in nodes.Values;
    }
    TreeFrame(mem0, mem, root, nodes);
  }

  /** As long as its frames are its own and nobody writes them, a space stays as it is. */
  lemma ShowsStill(mem0: Mem, owned0: set<nat>, mem: Mem, owned: set<nat>, s: Space, w: View)
    requires Shows(mem0, owned0, s, w) && |mem| == |mem0|
    requires forall q :: q in s.Footprint() ==> q in owned && (q < |mem| ==> mem[q] == mem0[q])
    ensures Shows(mem, owned, s, w)
  {
    assert SoundOpened(0);
    assert Looks(mem0, s, w);
    TableStill(mem0, mem, s.root, s.nodes);
    PagesStill(mem0, owned0, mem, owned, s.nodes, s.data);
    assert Looks(mem, s, w) by { assert LooksOpened(0); }
  }

  ghost predicate WorldOpened(k: int) { true }

  /** The spaces show the views, share nothing, and own all frames in use. */
  ghost predicate World(mem: Mem, owned: set<nat>, spaces: seq<Space>, views: seq<View>) {
    forall k :: WorldOpened(k) ==>
      && |spaces| == |views|
      && (forall i :: 0 <= i < |spaces| ==> Shows(mem, owned, spaces[i], views[i]))
      && (forall i, j :: 0 <= i < j < |spaces| ==> spaces[i].Footprint() !! spaces[j].Footprint())
      && (forall q :: q in owned ==> exists i :: 0 <= i < |spaces| && q in spaces[i].Footprint())
  }

  lemma WorldAt(mem: Mem, owned: set<nat>, spaces: seq<Space>, views: seq<View>, i: nat)
    requires World(mem, owned, spaces, views) && i < |spaces|
    ensures |spaces| == |views| && Shows(mem, owned, spaces[i], views[i])
  {
    assert WorldOpened(0);
  }

  lemma WorldDisjoint(mem: Mem, owned: set<nat>, spaces: seq<Space>, views: seq<View>, i: nat, j: nat)
    requires World(mem, owned, spaces, views) && i < |spaces| && j < |spaces| && i != j
    ensures spaces[i].Footprint() !! spaces[j].Footprint()
  {
    assert WorldOpened(0);
    if j < i {
      assert spaces[j].Footprint() !! spaces[i].Footprint();
    }
  }

  /** What changes when space `k` alone acts: its frames, and frames that were free. */
  ghost predicate ActsAlone(mem0: Mem, owned0: set<nat>, mem: Mem, owned: set<nat>, before: set<nat>, after: set<nat>) {
    && |mem| == |mem0| && owned == owned0 - before + after && after !! (owned0 - before)
    && forall q :: q in owned0 - before && q < |mem| ==> mem[q] == mem0[q]
  }

  lemma WorldStep(mem0: Mem, owned0: set<nat>, spaces: seq<Space>, views: seq<View>, k: nat, mem: Mem, owned: set<nat>, s: Space, w: View)
    requires World(mem0, owned0, spaces, views) && k < |spaces| == |views| && Shows(mem, owned, s, w)
    requires ActsAlone(mem0, owned0, mem, owned, spaces[k].Footprint(), s.Footprint())
    ensures World(mem, owned, spaces[k := s], views[k := w])
  {
    var spaces', views' := spaces[k := s], views[k := w];
    forall i | 0 <= i < |spaces'| && i != k
      ensures Shows(mem, owned, spaces[i], views[i]) && spaces[i].Footprint() <= owned0 - spaces[k].Footprint()
    {
      WorldAt(mem0, owned0, spaces, views, i);
      FootprintOwned(mem0, owned0, spaces[i]);
      WorldDisjoint(mem0, owned0, spaces, views, i, k);
      ShowsStill(mem0, owned0, mem, owned, spaces[i], views[i]);
    }
    forall q | q in owned ensures exists i :: 0 <= i < |spaces'| && q in spaces'[i].Footprint() {
      var i := WorldCovers(mem0, owned0, spaces, views, k, owned, s, q);
    }
    forall i, j | 0 <= i < j < |spaces'| ensures spaces'[i].Footprint() !! spaces'[j].Footprint() {
      if i != k && j != k {
        WorldDisjoint(mem0, owned0, spaces, views, i, j);
      }
    }
  }

  lemma WorldCovers(mem0: Mem, owned0: set<nat>, spaces: seq<Space>, views: seq<View>, k: nat, owned: set<nat>, s: Space, q: nat)
    returns (i: nat)
    requires World(mem0, owned0, spaces, views) && k < |spaces| && q in owned
    requires owned == owned0 - spaces[k].Footprint() + s.Footprint()
    ensures i < |spaces| && q in spaces[k := s][i].Footprint()
  {
    if q in s.Footprint() {
      i := k;
    } else {
      assert WorldOpened(0);
      i :| 0 <= i < |spaces| && q in spaces[i].Footprint();
    }
  }

  /** A new space on frames that were free joins the others. */
  lemma WorldGrows(mem0: Mem, owned0: set<nat>, spaces: seq<Space>, views: seq<View>, mem: Mem, owned: set<nat>, s: Space, w: View)
    requires World(mem0, owned0, spaces, views) && |spaces| == |views| && Shows(mem, owned, s, w)
    requires ActsAlone(mem0, owned0, mem, owned, {}, s.Footprint())
    ensures World(mem, owned, spaces + [s], views + [w])
  {
    var spaces', views' := spaces + [s], views + [w];
    forall i | 0 <= i < |spaces| ensures Shows(mem, owned, spaces[i], views[i]) && spaces[i].Footprint() <= owned0 {
      WorldAt(mem0, owned0, spaces, views, i);
      FootprintOwned(mem0, owned0, spaces[i]);
      ShowsStill(mem0, owned0, mem, owned, spaces[i], views[i]);
    }
    forall q | q in owned ensures exists i :: 0 <= i < |spaces'| && q in spaces'[i].Footprint() {
      if q in s.Footprint() {
        assert spaces'[|spaces|] == s;
      } else {
        assert WorldOpened(0);
        var i :| 0 <= i < |spaces| && q in spaces[i].Footprint();
        assert spaces'[i] == spaces[i];
      }
    }
    forall i, j | 0 <= i < j < |spaces'| ensures spaces'[i].Footprint() !! spaces'[j].Footprint() {
      if j < |spaces| {
        WorldDisjoint(mem0, owned0, spaces, views, i, j);
      }
    }
  }
}
