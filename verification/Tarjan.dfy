/**
 `Tarjan::find_sccs`: one depth-first search with an explicit stack of frames, discovery times,
 low-links and the stack of vertices whose component is still open.
 */
module Tarjan {
  import opened Sets
  import opened Graphs
  import opened Paths
  import opened Scc
  import opened Stacks

  datatype Frame = Frame(u: Vertex, neighbors: seq<Vertex>, idx: nat)

  // The variables of the search between two rounds of its inner loop; `path` lists the
  // vertices of the frames, bottom first.
  datatype State = State(
    timer: nat,
    disc: map<Vertex, nat>,
    low: map<Vertex, nat>,
    onStack: map<Vertex, bool>,
    stk: seq<Vertex>,
    path: seq<Vertex>,
    sccs: seq<Component>)

  // ---- The invariant ----

  ghost predicate Open(s: State, v: Vertex) {
    v in s.onStack && s.onStack[v]
  }

  // The vertices are listed in the order in which they were discovered.
  ghost predicate Ascending(disc: map<Vertex, nat>, vs: seq<Vertex>) {
    && (forall i :: 0 <= i < |vs| ==> vs[i] in disc)
    && (forall i, j :: 0 <= i < j < |vs| ==> disc[vs[i]] < disc[vs[j]])
  }

  // Earlier vertices reach later ones.
  ghost predicate Chain(adj: Adjacency, vs: seq<Vertex>) {
    forall i, j :: 0 <= i < j < |vs| ==> Reach(adj, vs[i], vs[j])
  }

  // Discovery order is stack order, and a discovered vertex is either open or in a finished
  // component.
  ghost predicate Bookkeeping(adj: Adjacency, s: State) {
    && s.disc.Keys == s.low.Keys == s.onStack.Keys <= adj.Keys
    && (forall v :: v in s.disc ==> s.disc[v] < s.timer)
    && (forall v :: Open(s, v) <==> v in s.stk)
    && Ascending(s.disc, s.stk)
    && (forall v :: v in Union(s.sccs) <==> v in s.disc && !Open(s, v))
  }

  // The active vertices are a depth-first path through open vertices; the path and the stack
  // start at the same vertex.
  ghost predicate ActivePath(adj: Adjacency, s: State) {
    && (s.path == [] <==> s.stk == [])
    && (s.path != [] ==> s.stk[0] == s.path[0])
    && (forall i :: 0 <= i < |s.path| ==> Open(s, s.path[i]))
    && Ascending(s.disc, s.path) && Chain(adj, s.path)
  }

  // Active vertex number `i` owns the open vertices discovered from it on and before the next
  // active one.
  ghost predicate Owns(s: State, i: int, w: Vertex) {
    && 0 <= i < |s.path| && s.path[i] in s.disc && w in s.disc
    && Open(s, w)
    && s.disc[s.path[i]] <= s.disc[w]
    && (i + 1 < |s.path| && s.path[i + 1] in s.disc ==> s.disc[w] < s.disc[s.path[i + 1]])
  }

  // An owned vertex and its owner reach each other.
  ghost predicate Segments(adj: Adjacency, s: State) {
    forall i, w :: Owns(s, i, w) ==> Mutual(adj, s.path[i], w)
  }

  // The edge w -> x has been looked at: w is finished, or its frame is past x.
  ghost predicate Scanned(adj: Adjacency, frames: seq<Frame>, w: Vertex, x: Vertex) {
    && Edge(adj, w, x)
    && forall i :: 0 <= i < |frames| && frames[i].u == w && frames[i].idx <= |frames[i].neighbors| ==>
        x in frames[i].neighbors[..frames[i].idx]
  }

  // A scanned edge leads to a discovered vertex, and the low-link of the owner of its source
  // accounts for its target while that is open.
  ghost predicate ScannedEdges(adj: Adjacency, s: State, frames: seq<Frame>) {
    && (forall w, x :: w in s.disc && Scanned(adj, frames, w, x) ==> x in s.disc)
    && (forall i, w, x :: Owns(s, i, w) && Scanned(adj, frames, w, x) ==> LowCovers(s, i, x))
  }

  ghost predicate LowCovers(s: State, i: int, x: Vertex) {
    Open(s, x) && 0 <= i < |s.path| && s.path[i] in s.low && x in s.disc ==> s.low[s.path[i]] <= s.disc[x]
  }

  // The low-link of `u` is the discovery time of an open vertex it reaches.
  ghost predicate LowWitness(adj: Adjacency, s: State, u: Vertex, x: Vertex) {
    && Open(s, x) && x in s.disc && u in s.low && u in s.disc
    && s.disc[x] == s.low[u] <= s.disc[u] && Reach(adj, u, x)
  }

  ghost predicate Witnessed(adj: Adjacency, s: State, u: Vertex) {
    exists x :: LowWitness(adj, s, u, x)
  }

  ghost predicate LowLinks(adj: Adjacency, s: State) {
    forall i :: 0 <= i < |s.path| ==> Witnessed(adj, s, s.path[i])
  }

  // The emitted components are strongly connected components, pairwise disjoint, and closed.
  ghost predicate Components(adj: Adjacency, cs: seq<Component>) {
    && (forall i :: 0 <= i < |cs| ==> NoDup(cs[i]) && IsScc(adj, Elements(cs[i])))
    && (forall i, j :: 0 <= i < j < |cs| ==> Elements(cs[i]) !! Elements(cs[j]))
    && EdgesGoBack(adj, cs)
  }

  ghost predicate Frames(adj: Adjacency, path: seq<Vertex>, frames: seq<Frame>) {
    && |frames| == |path|
    && forall i :: 0 <= i < |frames| ==>
        && frames[i].u == path[i] && frames[i].idx <= |frames[i].neighbors|
        && path[i] in adj && Elements(frames[i].neighbors) == adj[path[i]]
  }

  ghost predicate Inv(adj: Adjacency, s: State, frames: seq<Frame>) {
    && Bookkeeping(adj, s) && ActivePath(adj, s) && Frames(adj, s.path, frames)
    && Segments(adj, s) && ScannedEdges(adj, s, frames) && LowLinks(adj, s)
    && Components(adj, s.sccs)
  }

  // ---- The steps ----

  // `v` is discovered: it gets the next time, goes on the stack and becomes active.
  function Discover(s: State, v: Vertex): State {
    s.(timer := s.timer + 1, disc := s.disc[v := s.timer], low := s.low[v := s.timer],
       onStack := s.onStack[v := true], stk := s.stk + [v], path := s.path + [v])
  }

  // The top frame moves on to its next neighbour.
  function Advance(frames: seq<Frame>): (r: seq<Frame>)
    requires frames != []
    ensures |r| == |frames| && Top(r).u == Top(frames).u
    ensures Top(r).neighbors == Top(frames).neighbors && Top(r).idx == Top(frames).idx + 1
  {
    Pop(frames) + [Top(frames).(idx := Top(frames).idx + 1)]
  }

  function Lower(low: map<Vertex, nat>, u: Vertex, d: nat): map<Vertex, nat>
    requires u in low
  {
    low[u := if d < low[u] then d else low[u]]
  }

  // ---- Discovering keeps the invariant ----

  // `v` is new, and there is an edge to it from the top of the active path, if any.
  ghost predicate CanDiscover(adj: Adjacency, s: State, v: Vertex) {
    && v in adj && v !in s.disc
    && (s.path != [] ==> Edge(adj, Top(s.path), v))
  }

  lemma DiscoverBookkeeping(adj: Adjacency, s: State, v: Vertex)
    requires Bookkeeping(adj, s) && CanDiscover(adj, s, v)
    ensures Bookkeeping(adj, Discover(s, v))
  {
    hide Ascending, Union;
    AscendingSnoc(s.disc, s.stk, v, s.timer);
  }

  lemma ChainSnoc(adj: Adjacency, path: seq<Vertex>, v: Vertex)
    requires Chain(adj, path) && (path != [] ==> Edge(adj, Top(path), v))
    ensures Chain(adj, path + [v])
  {
    forall i | 0 <= i < |path|
      ensures Reach(adj, path[i], v)
    {
      ReachSelf(adj, Top(path));
      ReachStep(adj, path[i], Top(path), v);
    }
  }

  lemma AscendingSnoc(disc: map<Vertex, nat>, vs: seq<Vertex>, v: Vertex, t: nat)
    requires Ascending(disc, vs) && v !in disc && forall w :: w in disc ==> disc[w] < t
    ensures Ascending(disc[v := t], vs + [v])
  {
  }

  lemma DiscoverPath(adj: Adjacency, s: State, v: Vertex)
    requires Bookkeeping(adj, s) && ActivePath(adj, s) && CanDiscover(adj, s, v)
    ensures ActivePath(adj, Discover(s, v))
  {
    hide Ascending, Chain, Union;
    ChainSnoc(adj, s.path, v);
    AscendingSnoc(s.disc, s.path, v, s.timer);
  }

  // The new active vertex owns only itself; what the others own does not change.
  lemma DiscoverOwns(adj: Adjacency, s: State, v: Vertex, i: int, w: Vertex)
    requires Bookkeeping(adj, s) && ActivePath(adj, s) && CanDiscover(adj, s, v)
    requires Owns(Discover(s, v), i, w)
    ensures if i == |s.path| then w == v else w != v && Owns(s, i, w)
  {
    var s' := Discover(s, v);
    assert s'.path[i] == if i == |s.path| then v else s.path[i];
    if i + 1 < |s.path| {
      assert s'.path[i + 1] == s.path[i + 1];
    } else if i + 1 == |s.path| {
      assert s'.path[i + 1] == v;
    }
  }

  lemma DiscoverSegments(adj: Adjacency, s: State, v: Vertex)
    requires Bookkeeping(adj, s) && ActivePath(adj, s) && CanDiscover(adj, s, v)
    requires Segments(adj, s)
    ensures Segments(adj, Discover(s, v))
  {
    forall i, w | Owns(Discover(s, v), i, w)
      ensures Mutual(adj, Discover(s, v).path[i], w)
    {
      DiscoverOwns(adj, s, v, i, w);
      ReachSelf(adj, v);
    }
  }

  lemma DiscoverLowLinks(adj: Adjacency, s: State, v: Vertex)
    requires Bookkeeping(adj, s) && ActivePath(adj, s) && CanDiscover(adj, s, v)
    requires LowLinks(adj, s)
    ensures LowLinks(adj, Discover(s, v))
  {
    var s' := Discover(s, v);
    forall i | 0 <= i < |s'.path|
      ensures Witnessed(adj, s', s'.path[i])
    {
      if i == |s.path| {
        ReachSelf(adj, v);
        assert LowWitness(adj, s', v, v);
      } else {
        assert Witnessed(adj, s, s.path[i]);
        var x :| LowWitness(adj, s, s.path[i], x);
        assert LowWitness(adj, s', s'.path[i], x);
      }
    }
  }

  // Discovering scans at most the edge taken.
  lemma DiscoverScannedEdges(adj: Adjacency, s: State, v: Vertex, frames: seq<Frame>, frames': seq<Frame>)
    requires Bookkeeping(adj, s) && ActivePath(adj, s) && CanDiscover(adj, s, v)
    requires LowLinks(adj, s) && ScannedEdges(adj, s, frames)
    requires forall w, x :: Scanned(adj, frames', w, x) ==> w != v && (Scanned(adj, frames, w, x) || x == v)
    ensures ScannedEdges(adj, Discover(s, v), frames')
  {
    hide Ascending, Chain, Scanned, Union;
    var s' := Discover(s, v);
    forall i, w, x | Owns(s', i, w) && Scanned(adj, frames', w, x)
      ensures LowCovers(s', i, x)
    {
      DiscoverOwns(adj, s, v, i, w);
      assert i < |s.path| && s'.path[i] == s.path[i];
      if x == v {
        assert Witnessed(adj, s, s.path[i]);
      } else {
        assert LowCovers(s, i, x);
      }
    }
  }

  lemma StartScans(adj: Adjacency, v: Vertex, nbrs: seq<Vertex>, w: Vertex, x: Vertex)
    requires Scanned(adj, [Frame(v, nbrs, 0)], w, x)
    ensures w != v && Scanned(adj, [], w, x)
  {
    var f := Frame(v, nbrs, 0);
    assert [f][0] == f && f.neighbors[..0] == [];
  }

  lemma AdvanceScans(adj: Adjacency, frames: seq<Frame>, w: Vertex, x: Vertex)
    requires frames != [] && Top(frames).idx < |Top(frames).neighbors|
    requires Scanned(adj, Advance(frames), w, x)
    ensures Scanned(adj, frames, w, x) || (w == Top(frames).u && x == Top(frames).neighbors[Top(frames).idx])
  {
    var f := Top(frames);
    assert f.neighbors[..f.idx + 1] == f.neighbors[..f.idx] + [f.neighbors[f.idx]];
    var fs' := Advance(frames);
    forall i | 0 <= i < |frames| && frames[i].u == w && frames[i].idx <= |frames[i].neighbors|
      ensures x in frames[i].neighbors[..frames[i].idx] || (w == f.u && x == f.neighbors[f.idx])
    {
      if i == |frames| - 1 {
        assert fs'[i] == f.(idx := f.idx + 1);
      } else {
        assert fs'[i] == frames[i];
      }
    }
  }

  lemma PushScans(adj: Adjacency, frames: seq<Frame>, v: Vertex, nbrs: seq<Vertex>, w: Vertex, x: Vertex)
    requires Scanned(adj, frames + [Frame(v, nbrs, 0)], w, x)
    ensures w != v && Scanned(adj, frames, w, x)
  {
    var fs' := frames + [Frame(v, nbrs, 0)];
    assert fs'[|frames|] == Frame(v, nbrs, 0) && fs'[|frames|].neighbors[..0] == [];
    forall i | 0 <= i < |frames| && frames[i].u == w && frames[i].idx <= |frames[i].neighbors|
      ensures x in frames[i].neighbors[..frames[i].idx]
    {
      assert fs'[i] == frames[i];
    }
  }

  lemma DescendFrames(adj: Adjacency, path: seq<Vertex>, frames: seq<Frame>, v: Vertex, nbrs: seq<Vertex>)
    requires Frames(adj, path, frames) && frames != [] && Top(frames).idx < |Top(frames).neighbors|
    requires v in adj && Elements(nbrs) == adj[v]
    ensures Frames(adj, path, Advance(frames))
    ensures Frames(adj, path + [v], Advance(frames) + [Frame(v, nbrs, 0)])
  {
  }

  lemma StartKeepsInv(adj: Adjacency, s: State, v: Vertex, nbrs: seq<Vertex>)
    requires Inv(adj, s, []) && v in adj && v !in s.disc && Elements(nbrs) == adj[v]
    ensures Inv(adj, Discover(s, v), [Frame(v, nbrs, 0)])
  {
    forall w, x | Scanned(adj, [Frame(v, nbrs, 0)], w, x)
      ensures w != v && Scanned(adj, [], w, x)
    {
      StartScans(adj, v, nbrs, w, x);
    }
    DiscoverBookkeeping(adj, s, v);
    DiscoverPath(adj, s, v);
    DiscoverSegments(adj, s, v);
    DiscoverLowLinks(adj, s, v);
    DiscoverScannedEdges(adj, s, v, [], [Frame(v, nbrs, 0)]);
  }

  lemma DescendKeepsInv(adj: Adjacency, s: State, frames: seq<Frame>, nbrs: seq<Vertex>, v: Vertex)
    requires Inv(adj, s, frames) && frames != [] && Top(frames).idx < |Top(frames).neighbors|
    requires v == Top(frames).neighbors[Top(frames).idx] && v !in s.disc
    requires v in adj && Elements(nbrs) == adj[v]
    ensures Inv(adj, Discover(s, v), Advance(frames) + [Frame(v, nbrs, 0)])
  {
    hide Segments, ScannedEdges, LowLinks, Bookkeeping, Components, Ascending, Chain;
    var frames' := Advance(frames) + [Frame(v, nbrs, 0)];
    assert v in Elements(Top(frames).neighbors);
    forall w, x | Scanned(adj, frames', w, x)
      ensures w != v && (Scanned(adj, frames, w, x) || x == v)
    {
      PushScans(adj, Advance(frames), v, nbrs, w, x);
      AdvanceScans(adj, frames, w, x);
    }
    DiscoverBookkeeping(adj, s, v);
    DiscoverPath(adj, s, v);
    DiscoverSegments(adj, s, v);
    DiscoverLowLinks(adj, s, v);
    DiscoverScannedEdges(adj, s, v, frames, frames');
    DescendFrames(adj, s.path, frames, v, nbrs);
  }

  // ---- An edge to a discovered vertex ----

  function Relax(s: State, v: Vertex): State
    requires s.path != [] && Top(s.path) in s.low && v in s.disc && v in s.onStack
  {
    if s.onStack[v] then s.(low := Lower(s.low, Top(s.path), s.disc[v])) else s
  }

  ghost predicate CanRelax(adj: Adjacency, s: State, v: Vertex) {
    && Bookkeeping(adj, s) && ActivePath(adj, s) && LowLinks(adj, s)
    && s.path != [] && Edge(adj, Top(s.path), v) && v in s.disc
  }

  lemma RelaxOwns(adj: Adjacency, s: State, v: Vertex, i: int, w: Vertex)
    requires CanRelax(adj, s, v) && Owns(Relax(s, v), i, w)
    ensures Owns(s, i, w) && (w == Top(s.path) ==> i == |s.path| - 1)
  {
  }

  lemma RelaxSegments(adj: Adjacency, s: State, v: Vertex)
    requires CanRelax(adj, s, v) && Segments(adj, s)
    ensures Bookkeeping(adj, Relax(s, v)) && ActivePath(adj, Relax(s, v)) && Segments(adj, Relax(s, v))
  {
    forall i, w | Owns(Relax(s, v), i, w)
      ensures Mutual(adj, s.path[i], w)
    {
      RelaxOwns(adj, s, v, i, w);
    }
  }

  lemma RelaxLowLinks(adj: Adjacency, s: State, v: Vertex)
    requires CanRelax(adj, s, v)
    ensures LowLinks(adj, Relax(s, v))
  {
    var s', u := Relax(s, v), Top(s.path);
    forall i | 0 <= i < |s.path|
      ensures Witnessed(adj, s', s.path[i])
    {
      assert Witnessed(adj, s, s.path[i]);
      var x :| LowWitness(adj, s, s.path[i], x);
      if s'.low[s.path[i]] == s.low[s.path[i]] {
        assert LowWitness(adj, s', s.path[i], x);
      } else {
        ReachEdge(adj, u, v);
        assert LowWitness(adj, s', u, v);
      }
    }
  }

  lemma RelaxScannedEdges(adj: Adjacency, s: State, v: Vertex, frames: seq<Frame>, frames': seq<Frame>)
    requires CanRelax(adj, s, v) && ScannedEdges(adj, s, frames)
    requires forall w, x :: Scanned(adj, frames', w, x) ==> Scanned(adj, frames, w, x) || (w == Top(s.path) && x == v)
    ensures ScannedEdges(adj, Relax(s, v), frames')
  {
    hide Ascending, Chain, Scanned, Union, Owns, LowLinks;
    var s', u := Relax(s, v), Top(s.path);
    forall i, w, x | Owns(s', i, w) && Scanned(adj, frames', w, x)
      ensures LowCovers(s', i, x)
    {
      RelaxOwns(adj, s, v, i, w);
      if !(w == u && x == v) {
        assert LowCovers(s, i, x);
      }
    }
  }

  lemma RelaxKeepsInv(adj: Adjacency, s: State, frames: seq<Frame>, v: Vertex)
    requires Inv(adj, s, frames) && frames != [] && Top(frames).idx < |Top(frames).neighbors|
    requires v == Top(frames).neighbors[Top(frames).idx] && v in s.disc
    ensures Inv(adj, Relax(s, v), Advance(frames))
  {
    hide Segments, ScannedEdges, LowLinks, Components, Ascending, Chain, Union;
    assert v in Elements(Top(frames).neighbors);
    DescendFrames(adj, s.path, frames, Top(s.path), Top(frames).neighbors);
    forall w, x | Scanned(adj, Advance(frames), w, x)
      ensures Scanned(adj, frames, w, x) || (w == Top(s.path) && x == v)
    {
      AdvanceScans(adj, frames, w, x);
    }
    RelaxLowLinks(adj, s, v);
    RelaxScannedEdges(adj, s, v, frames, Advance(frames));
    RelaxSegments(adj, s, v);
  }

  // ---- Returning from a finished vertex ----

  // Every open vertex has an owner.
  lemma OwnerOf(adj: Adjacency, s: State, w: Vertex) returns (i: int)
    requires Bookkeeping(adj, s) && ActivePath(adj, s) && Open(s, w)
    ensures Owns(s, i, w)
  {
    assert s.disc[s.path[0]] <= s.disc[w];
    i := |s.path| - 1;
    while s.disc[w] < s.disc[s.path[i]]
      invariant 0 <= i < |s.path|
      invariant i + 1 < |s.path| ==> s.disc[w] < s.disc[s.path[i + 1]]
    {
      i := i - 1;
    }
  }

  // When the top frame is popped, its vertex counts as fully scanned, which it was.
  lemma PopScans(adj: Adjacency, s: State, frames: seq<Frame>, w: Vertex, x: Vertex)
    requires ActivePath(adj, s) && Frames(adj, s.path, frames) && frames != []
    requires Top(frames).idx == |Top(frames).neighbors|
    requires Scanned(adj, Pop(frames), w, x)
    ensures Scanned(adj, frames, w, x)
  {
    var f := Top(frames);
    assert f.neighbors[..f.idx] == f.neighbors;
    forall i | 0 <= i < |frames| && frames[i].u == w && frames[i].idx <= |frames[i].neighbors|
      ensures x in frames[i].neighbors[..frames[i].idx]
    {
      if i < |frames| - 1 {
        assert Pop(frames)[i] == frames[i];
      } else {
        assert x in Elements(f.neighbors);
      }
    }
  }

  // The parent of the top active vertex takes over its low-link.
  function Fold(s: State): map<Vertex, nat>
    requires s.path != [] && Top(s.path) in s.low && forall i :: 0 <= i < |s.path| ==> s.path[i] in s.low
  {
    if |s.path| == 1 then s.low else Lower(s.low, s.path[|s.path| - 2], s.low[Top(s.path)])
  }

  function Return(s: State): State
    requires s.path != [] && Top(s.path) in s.low && forall i :: 0 <= i < |s.path| ==> s.path[i] in s.low
  {
    s.(path := Pop(s.path), low := Fold(s))
  }

  // An active vertex whose low-link is below its discovery time has a parent, and reaches it.
  lemma NotARoot(adj: Adjacency, s: State)
    requires Bookkeeping(adj, s) && ActivePath(adj, s) && Segments(adj, s) && LowLinks(adj, s)
    requires s.path != [] && s.low[Top(s.path)] != s.disc[Top(s.path)]
    ensures |s.path| > 1 && Reach(adj, Top(s.path), s.path[|s.path| - 2])
  {
    var n, u := |s.path|, Top(s.path);
    assert Witnessed(adj, s, s.path[n - 1]);
    var x :| LowWitness(adj, s, u, x);
    var j := OwnerOf(adj, s, x);
    assert j < n - 1;
    ReachTrans(adj, u, x, s.path[j]);
    if j < n - 2 {
      ReachTrans(adj, u, s.path[j], s.path[n - 2]);
    }
  }

  lemma ReturnOwns(adj: Adjacency, s: State, i: int, w: Vertex)
    requires Bookkeeping(adj, s) && ActivePath(adj, s) && |s.path| > 1
    requires Owns(Return(s), i, w)
    ensures i <= |s.path| - 2
    ensures Owns(s, i, w) || (i == |s.path| - 2 && Owns(s, i + 1, w))
  {
  }

  ghost predicate CanReturn(adj: Adjacency, s: State) {
    && Bookkeeping(adj, s) && ActivePath(adj, s) && Segments(adj, s) && LowLinks(adj, s)
    && |s.path| > 1 && Reach(adj, Top(s.path), s.path[|s.path| - 2])
  }

  lemma PopFrames(adj: Adjacency, path: seq<Vertex>, frames: seq<Frame>)
    requires Frames(adj, path, frames) && frames != []
    ensures Frames(adj, Pop(path), Pop(frames))
  {
  }

  lemma ReturnPath(adj: Adjacency, s: State)
    requires Bookkeeping(adj, s) && ActivePath(adj, s) && |s.path| > 1
    ensures Bookkeeping(adj, Return(s)) && ActivePath(adj, Return(s))
  {
  }

  lemma ReturnSegments(adj: Adjacency, s: State)
    requires CanReturn(adj, s)
    ensures Segments(adj, Return(s))
  {
    forall i, w | Owns(Return(s), i, w)
      ensures Mutual(adj, Return(s).path[i], w)
    {
      ReturnOwns(adj, s, i, w);
      if !Owns(s, i, w) {
        MutualVia(adj, s.path[i], Top(s.path), w);
      }
    }
  }

  lemma ReturnScannedEdges(adj: Adjacency, s: State, frames: seq<Frame>)
    requires CanReturn(adj, s) && ScannedEdges(adj, s, frames)
    requires Frames(adj, s.path, frames) && Top(frames).idx == |Top(frames).neighbors|
    ensures ScannedEdges(adj, Return(s), Pop(frames))
  {
    hide Ascending, Chain, Segments, LowLinks, Owns, Scanned, Union;
    var s' := Return(s);
    forall w, x | Scanned(adj, Pop(frames), w, x)
      ensures Scanned(adj, frames, w, x)
    {
      PopScans(adj, s, frames, w, x);
    }
    forall i, w, x | Owns(s', i, w) && Scanned(adj, Pop(frames), w, x)
      ensures LowCovers(s', i, x)
    {
      ReturnOwns(adj, s, i, w);
      assert LowCovers(s, if Owns(s, i, w) then i else i + 1, x);
    }
  }

  lemma ReturnLowLinks(adj: Adjacency, s: State)
    requires CanReturn(adj, s)
    ensures LowLinks(adj, Return(s))
  {
    var s', n, u := Return(s), |s.path|, Top(s.path);
    assert Witnessed(adj, s, s.path[n - 1]);
    var x :| LowWitness(adj, s, u, x);
    forall i | 0 <= i < n - 1
      ensures Witnessed(adj, s', s'.path[i])
    {
      assert s'.path[i] == s.path[i];
      assert Witnessed(adj, s, s.path[i]);
      var y :| LowWitness(adj, s, s.path[i], y);
      if s'.low[s.path[i]] == s.low[s.path[i]] {
        assert LowWitness(adj, s', s.path[i], y);
      } else {
        ReachTrans(adj, s.path[n - 2], u, x);
        assert LowWitness(adj, s', s.path[n - 2], x);
      }
    }
  }

  lemma ReturnKeepsInv(adj: Adjacency, s: State, frames: seq<Frame>)
    requires Inv(adj, s, frames) && frames != [] && Top(frames).idx == |Top(frames).neighbors|
    requires s.low[Top(s.path)] != s.disc[Top(s.path)]
    ensures Inv(adj, Return(s), Pop(frames))
  {
    NotARoot(adj, s);
    PopFrames(adj, s.path, frames);
    ReturnPath(adj, s);
    ReturnSegments(adj, s);
    ReturnScannedEdges(adj, s, frames);
    ReturnLowLinks(adj, s);
  }

  // ---- Emitting a component ----

  // The vertices of the stack from position `k` on, top first.
  ghost predicate TakenFrom(stk: seq<Vertex>, k: nat, comp: Component) {
    && k < |stk| && |comp| == |stk| - k
    && forall i :: 0 <= i < |comp| ==> comp[i] == stk[|stk| - 1 - i]
  }

  lemma TakenAbove(disc: map<Vertex, nat>, stk: seq<Vertex>, k: nat, comp: Component, v: Vertex)
    requires Ascending(disc, stk) && TakenFrom(stk, k, comp)
    ensures v in comp <==> v in stk && disc[stk[k]] <= disc[v]
    ensures v in stk[..k] <==> v in stk && disc[v] < disc[stk[k]]
  {
    if v in comp {
      var i :| 0 <= i < |comp| && comp[i] == v;
      assert stk[|stk| - 1 - i] == v;
    }
    if v in stk {
      var i :| 0 <= i < |stk| && stk[i] == v;
      if k <= i {
        assert comp[|stk| - 1 - i] == v;
      } else {
        assert stk[..k][i] == v;
      }
    }
  }

  lemma TakenNoDup(disc: map<Vertex, nat>, stk: seq<Vertex>, k: nat, comp: Component)
    requires Ascending(disc, stk) && TakenFrom(stk, k, comp)
    ensures NoDup(comp)
  {
    forall i, j | 0 <= i < j < |comp|
      ensures comp[i] != comp[j]
    {
      assert disc[stk[|stk| - 1 - j]] < disc[stk[|stk| - 1 - i]];
    }
  }

  // The stack above and including the root's position `k` becomes a component, top first.
  ghost predicate Emits(s: State, k: nat, comp: Component, s': State) {
    && s.path != [] && k < |s.stk| && s.stk[k] == Top(s.path)
    && TakenFrom(s.stk, k, comp)
    && s'.onStack.Keys == s.onStack.Keys
    && (forall v :: v in s.onStack ==> s'.onStack[v] == (s.onStack[v] && v !in comp))
    && s'.timer == s.timer && s'.disc == s.disc && s'.low == s.low
    && s'.stk == s.stk[..k] && s'.path == Pop(s.path) && s'.sccs == s.sccs + [comp]
  }

  ghost predicate IsRoot(adj: Adjacency, s: State) {
    && Bookkeeping(adj, s) && ActivePath(adj, s)
    && s.path != [] && Top(s.path) in s.disc && s.low[Top(s.path)] == s.disc[Top(s.path)]
  }

  // What is emitted is exactly what the root owns.
  lemma EmitsOwned(adj: Adjacency, s: State, k: nat, comp: Component, s': State, v: Vertex)
    requires IsRoot(adj, s) && Emits(s, k, comp, s')
    ensures v in comp <==> Owns(s, |s.path| - 1, v)
  {
    TakenAbove(s.disc, s.stk, k, comp, v);
  }

  // Folding a root's low-link into its parent changes nothing: the parent's is already lower.
  lemma FoldAfterEmitIsHarmless(adj: Adjacency, s: State)
    requires IsRoot(adj, s) && LowLinks(adj, s)
    ensures Fold(s) == s.low
  {
    if |s.path| > 1 {
      assert Witnessed(adj, s, s.path[|s.path| - 2]);
    }
  }

  // No edge leaves the emitted and the newly emitted vertices together.
  lemma EmittedIsClosed(adj: Adjacency, s: State, frames: seq<Frame>, w: Vertex, x: Vertex)
    requires IsRoot(adj, s) && ScannedEdges(adj, s, frames) && Frames(adj, s.path, frames)
    requires Top(frames).idx == |Top(frames).neighbors|
    requires Owns(s, |s.path| - 1, w) && Edge(adj, w, x)
    ensures x in Union(s.sccs) || Owns(s, |s.path| - 1, x)
  {
    var n := |s.path|;
    assert Scanned(adj, frames, w, x) by {
      var f := Top(frames);
      assert f.neighbors[..f.idx] == f.neighbors;
      assert f.u == w ==> x in Elements(f.neighbors);
      forall i | 0 <= i < n && frames[i].u == w
        ensures i == n - 1
      {
      }
    }
    assert LowCovers(s, n - 1, x);
  }

  // What a root owns is its strongly connected component.
  lemma EmittedIsScc(adj: Adjacency, s: State, frames: seq<Frame>, c: set<Vertex>)
    requires IsRoot(adj, s) && ScannedEdges(adj, s, frames) && Frames(adj, s.path, frames)
    requires Top(frames).idx == |Top(frames).neighbors|
    requires Segments(adj, s) && EdgesGoBack(adj, s.sccs)
    requires forall v :: v in c <==> Owns(s, |s.path| - 1, v)
    ensures IsScc(adj, c)
  {
    var u := Top(s.path);
    assert Owns(s, |s.path| - 1, u);
    forall v: Vertex | Mutual(adj, u, v)
      ensures v in c
    {
      forall x, y | x in Union(s.sccs) + c && Edge(adj, x, y)
        ensures y in Union(s.sccs) + c
      {
        if x in c {
          EmittedIsClosed(adj, s, frames, x, y);
        } else {
          UnionIsClosed(adj, s.sccs, x, y);
        }
      }
      StaysInside(adj, Union(s.sccs) + c, u, v);
      if v in Union(s.sccs) {
        forall x, y | x in Union(s.sccs) && Edge(adj, x, y)
          ensures y in Union(s.sccs)
        {
          UnionIsClosed(adj, s.sccs, x, y);
        }
        StaysInside(adj, Union(s.sccs), v, u);
      }
    }
    SccFromRoot(adj, c, u);
  }

  lemma UnionIsClosed(adj: Adjacency, cs: seq<Component>, x: Vertex, y: Vertex)
    requires EdgesGoBack(adj, cs) && x in Union(cs) && Edge(adj, x, y)
    ensures y in Union(cs)
  {
    var i :| 0 <= i < |cs| && x in cs[i];
    var j := IndexOf(cs[..i + 1], y);
    assert y in cs[j];
  }

  lemma EmitGoesBack(adj: Adjacency, cs: seq<Component>, comp: Component)
    requires EdgesGoBack(adj, cs)
    requires forall u, v :: u in comp && Edge(adj, u, v) ==> v in Union(cs) || v in comp
    ensures EdgesGoBack(adj, cs + [comp])
  {
    var cs' := cs + [comp];
    UnionSnoc(cs, comp);
    forall i, u, v | 0 <= i < |cs'| && u in cs'[i] && Edge(adj, u, v)
      ensures v in Union(cs'[..i + 1])
    {
      assert cs'[..i + 1] == if i < |cs| then cs[..i + 1] else cs';
    }
  }

  lemma EmitComponents(adj: Adjacency, cs: seq<Component>, comp: Component)
    requires Components(adj, cs) && NoDup(comp) && IsScc(adj, Elements(comp))
    requires forall v :: v in comp ==> v !in Union(cs)
    requires forall u, v :: u in comp && Edge(adj, u, v) ==> v in Union(cs) || v in comp
    ensures Components(adj, cs + [comp])
  {
    EmitGoesBack(adj, cs, comp);
    forall i | 0 <= i < |cs|
      ensures Elements(cs[i]) !! Elements(comp)
    {
      forall v | v in Elements(cs[i])
        ensures v !in comp
      {
        assert v in cs[i];
        assert v in Union(cs);
      }
    }
  }

  lemma EmitOpen(adj: Adjacency, s: State, k: nat, comp: Component, s': State, v: Vertex)
    requires IsRoot(adj, s) && Emits(s, k, comp, s')
    ensures Open(s', v) <==> Open(s, v) && v !in comp
    ensures Open(s', v) <==> v in s'.stk
    ensures v in comp ==> Open(s, v)
    ensures Open(s', v) <==> Open(s, v) && s.disc[v] < s.disc[Top(s.path)]
  {
    TakenAbove(s.disc, s.stk, k, comp, v);
  }

  lemma EmitBookkeeping(adj: Adjacency, s: State, k: nat, comp: Component, s': State)
    requires IsRoot(adj, s) && Emits(s, k, comp, s')
    ensures Bookkeeping(adj, s')
    ensures forall v :: Open(s', v) <==> Open(s, v) && v in s.disc && s.disc[v] < s.disc[Top(s.path)]
  {
    hide Ascending, TakenFrom, Union, Chain;
    forall v
      ensures Open(s', v) <==> Open(s, v) && v !in comp
      ensures Open(s', v) <==> v in s'.stk
      ensures Open(s', v) <==> Open(s, v) && v in s.disc && s.disc[v] < s.disc[Top(s.path)]
      ensures v in comp ==> Open(s, v)
    {
      EmitOpen(adj, s, k, comp, s', v);
    }
    EmitUnion(adj, s, comp, s');
    AscendingPrefix(s.disc, s.stk, k);
  }

  lemma AscendingPrefix(disc: map<Vertex, nat>, vs: seq<Vertex>, k: nat)
    requires Ascending(disc, vs) && k <= |vs|
    ensures Ascending(disc, vs[..k])
  {
  }

  lemma EmitUnion(adj: Adjacency, s: State, comp: Component, s': State)
    requires Bookkeeping(adj, s) && s'.disc == s.disc && s'.sccs == s.sccs + [comp]
    requires forall v :: Open(s', v) <==> Open(s, v) && v !in comp
    requires forall v :: v in comp ==> Open(s, v)
    ensures forall v :: v in Union(s'.sccs) <==> v in s'.disc && !Open(s', v)
  {
    UnionSnoc(s.sccs, comp);
    assert forall v :: v in Elements(comp) <==> v in comp;
  }

  lemma EmitPath(adj: Adjacency, s: State, k: nat, comp: Component, s': State)
    requires IsRoot(adj, s) && Emits(s, k, comp, s')
    requires forall v :: Open(s', v) <==> Open(s, v) && s.disc[v] < s.disc[Top(s.path)]
    ensures ActivePath(adj, s')
  {
    assert |s.path| == 1 <==> k == 0;
  }

  // What the remaining active vertices own and what witnesses their low-links is unaffected.
  ghost predicate Emitted(adj: Adjacency, s: State, s': State) {
    && s.path != [] && Top(s.path) in s.disc && s'.path == Pop(s.path)
    && s'.disc == s.disc && s'.low == s.low
    && forall v :: Open(s', v) <==> Open(s, v) && v in s.disc && s.disc[v] < s.disc[Top(s.path)]
  }

  lemma EmitOwns(adj: Adjacency, s: State, s': State, i: int, w: Vertex)
    requires ActivePath(adj, s) && Emitted(adj, s, s') && Owns(s', i, w)
    ensures Owns(s, i, w) && s'.path[i] == s.path[i]
  {
  }

  lemma EmitLowLinks(adj: Adjacency, s: State, s': State)
    requires ActivePath(adj, s) && Emitted(adj, s, s') && LowLinks(adj, s)
    ensures LowLinks(adj, s')
  {
    forall i | 0 <= i < |s'.path|
      ensures Witnessed(adj, s', s'.path[i])
    {
      assert s'.path[i] == s.path[i];
      assert Witnessed(adj, s, s.path[i]);
      var x :| LowWitness(adj, s, s.path[i], x);
      assert LowWitness(adj, s', s'.path[i], x);
    }
  }

  lemma EmitScannedEdges(adj: Adjacency, s: State, frames: seq<Frame>, s': State)
    requires ActivePath(adj, s) && Emitted(adj, s, s') && Frames(adj, s.path, frames)
    requires Segments(adj, s) && ScannedEdges(adj, s, frames)
    requires Top(frames).idx == |Top(frames).neighbors|
    ensures Segments(adj, s') && ScannedEdges(adj, s', Pop(frames))
  {
    forall i, w | Owns(s', i, w)
      ensures Owns(s, i, w) && s'.path[i] == s.path[i]
    {
      EmitOwns(adj, s, s', i, w);
    }
    forall w, x | Scanned(adj, Pop(frames), w, x)
      ensures Scanned(adj, frames, w, x)
    {
      PopScans(adj, s, frames, w, x);
    }
    forall i, w, x | Owns(s', i, w) && Scanned(adj, Pop(frames), w, x)
      ensures LowCovers(s', i, x)
    {
      assert LowCovers(s, i, x);
    }
  }

  lemma EmitKeepsInv(adj: Adjacency, s: State, frames: seq<Frame>, k: nat, comp: Component, s': State)
    requires Inv(adj, s, frames) && IsRoot(adj, s)
    requires Top(frames).idx == |Top(frames).neighbors|
    requires Emits(s, k, comp, s')
    ensures Fold(s) == s.low && Inv(adj, s', Pop(frames))
  {
    FoldAfterEmitIsHarmless(adj, s);
    PopFrames(adj, s.path, frames);
    EmitBookkeeping(adj, s, k, comp, s');
    EmitPath(adj, s, k, comp, s');
    EmitLowLinks(adj, s, s');
    EmitScannedEdges(adj, s, frames, s');
    EmitNewComponent(adj, s, frames, k, comp, s');
  }

  lemma EmitNewComponent(adj: Adjacency, s: State, frames: seq<Frame>, k: nat, comp: Component, s': State)
    requires Inv(adj, s, frames) && IsRoot(adj, s)
    requires Top(frames).idx == |Top(frames).neighbors|
    requires Emits(s, k, comp, s')
    ensures Components(adj, s'.sccs)
  {
    TakenNoDup(s.disc, s.stk, k, comp);
    forall v
      ensures v in comp <==> Owns(s, |s.path| - 1, v)
    {
      EmitsOwned(adj, s, k, comp, s', v);
    }
    EmittedIsScc(adj, s, frames, Elements(comp));
    forall u, v | u in comp && Edge(adj, u, v)
      ensures v in Union(s.sccs) || v in comp
    {
      EmittedIsClosed(adj, s, frames, u, v);
    }
    EmitComponents(adj, s.sccs, comp);
  }

  // ---- The number of rounds of the inner loop ----

  ghost function IdxSum(frames: seq<Frame>): nat {
    if frames == [] then 0 else IdxSum(Pop(frames)) + Top(frames).idx
  }

  // One round per edge passed and one per vertex finished.
  ghost predicate Counted(adj: Adjacency, seen: set<Vertex>, path: seq<Vertex>, frames: seq<Frame>, steps: nat) {
    && seen <= adj.Keys && Elements(path) <= seen && NoDup(path)
    && |frames| == |path|
    && (forall i :: 0 <= i < |frames| ==> path[i] in adj && |frames[i].neighbors| == |adj[path[i]]|)
    && steps == Work(adj, seen - Elements(path)) + IdxSum(frames)
  }

  lemma CountAdvance(adj: Adjacency, seen: set<Vertex>, path: seq<Vertex>, frames: seq<Frame>, steps: nat)
    requires Counted(adj, seen, path, frames, steps) && frames != []
    ensures Counted(adj, seen, path, Advance(frames), steps + 1)
  {
    assert Pop(Advance(frames)) == Pop(frames);
  }

  lemma CountDiscover(adj: Adjacency, seen: set<Vertex>, path: seq<Vertex>, frames: seq<Frame>, steps: nat,
                      v: Vertex, nbrs: seq<Vertex>)
    requires Counted(adj, seen, path, frames, steps) && v in adj && v !in seen && |nbrs| == |adj[v]|
    ensures Counted(adj, seen + {v}, path + [v], frames + [Frame(v, nbrs, 0)], steps)
  {
    assert Pop(frames + [Frame(v, nbrs, 0)]) == frames;
    assert seen + {v} - Elements(path + [v]) == seen - Elements(path);
    assert forall x :: x in path ==> x in Elements(path);
  }

  lemma CountReturn(adj: Adjacency, seen: set<Vertex>, path: seq<Vertex>, frames: seq<Frame>, steps: nat)
    requires Counted(adj, seen, path, frames, steps) && frames != []
    requires Top(frames).idx == |Top(frames).neighbors|
    ensures Counted(adj, seen, Pop(path), Pop(frames), steps + 1)
  {
    hide Work;
    var u := Top(path);
    assert path == Pop(path) + [u];
    assert Elements(path) == Elements(Pop(path)) + {u};
    assert u in Elements(path) && u !in Pop(path);
    assert seen - Elements(Pop(path)) == (seen - Elements(path)) + {u};
    WorkAdd(adj, seen - Elements(path), u);
  }

  // ---- The algorithm ----

  // Pops the stack down to and including `u`.
  method PopComponent(stk: seq<Vertex>, onStack: map<Vertex, bool>, u: Vertex, ghost k: nat)
    returns (comp: Component, stk': seq<Vertex>, onStack': map<Vertex, bool>)
    requires k < |stk| && stk[k] == u && forall i :: 0 <= i < |stk| ==> stk[i] in onStack
    requires forall i :: k < i < |stk| ==> stk[i] != u
    ensures TakenFrom(stk, k, comp) && stk' == stk[..k]
    ensures onStack'.Keys == onStack.Keys
    ensures forall v :: v in onStack ==> onStack'[v] == (onStack[v] && v !in comp)
  {
    comp, stk', onStack' := [], stk, onStack;
    while true
      invariant k < |stk'| <= |stk| && stk' == stk[..|stk'|]
      invariant |comp| == |stk| - |stk'|
      invariant forall i :: 0 <= i < |comp| ==> comp[i] == stk[|stk| - 1 - i]
      invariant onStack'.Keys == onStack.Keys
      invariant forall v :: v in onStack ==> onStack'[v] == (onStack[v] && v !in comp)
      decreases |stk'|
    {
      var w := Top(stk');
      stk' := Pop(stk');
      onStack' := onStack'[w := false];
      comp := comp + [w];
      if w == u { break; }
    }
  }

  lemma InitInv(adj: Adjacency, s: State)
    requires s == State(0, map[], map[], map[], [], [], [])
    ensures Inv(adj, s, []) && Counted(adj, s.disc.Keys, s.path, [], 0)
  {
    assert s.disc.Keys - Elements(s.path) == {};
  }

  // What the inner loop reads is there.
  lemma TopIsKnown(adj: Adjacency, s: State, frames: seq<Frame>)
    requires Closed(adj) && Inv(adj, s, frames) && frames != []
    ensures |s.path| == |frames| && forall i :: 0 <= i < |frames| ==> frames[i].u == s.path[i] && s.path[i] in s.low
    ensures Top(s.path) in s.disc && Top(s.path) in adj
    ensures forall v :: v in s.disc <==> v in s.onStack
    ensures Top(frames).idx <= |Top(frames).neighbors|
    ensures forall v :: v in Top(frames).neighbors ==> v in adj
    ensures Bookkeeping(adj, s) && ActivePath(adj, s)
  {
    forall v | v in Top(frames).neighbors
      ensures v in adj
    {
      assert v in Elements(Top(frames).neighbors);
    }
  }

  // The top frame is that of the top active vertex.
  lemma TopFrame(adj: Adjacency, s: State, frames: seq<Frame>)
    requires Closed(adj) && Inv(adj, s, frames) && frames != []
    ensures |s.path| == |frames| && Top(frames).u == Top(s.path)
    ensures Top(s.path) in s.low && Top(s.path) in adj
    ensures Top(frames).idx <= |Top(frames).neighbors|
    ensures Top(frames).idx < |Top(frames).neighbors| ==>
      var v := Top(frames).neighbors[Top(frames).idx]; v in adj && (v in s.disc <==> v in s.onStack)
  {
    TopIsKnown(adj, s, frames);
  }

  // The top active vertex is on the stack, once.
  lemma TopPosition(adj: Adjacency, s: State) returns (k: nat)
    requires Bookkeeping(adj, s) && ActivePath(adj, s) && s.path != []
    ensures k < |s.stk| && s.stk[k] == Top(s.path)
    ensures forall i :: k < i < |s.stk| ==> s.stk[i] != Top(s.path)
    ensures forall i :: 0 <= i < |s.stk| ==> s.stk[i] in s.onStack
  {
    k :| 0 <= k < |s.stk| && s.stk[k] == Top(s.path);
  }

  lemma Finished(adj: Adjacency, s: State, vertices: seq<Vertex>, steps: nat)
    requires Inv(adj, s, []) && Counted(adj, s.disc.Keys, s.path, [], steps)
    requires Elements(vertices) == adj.Keys && forall j :: 0 <= j < |vertices| ==> vertices[j] in s.disc
    ensures SccPartition(adj, s.sccs) && EdgesGoBack(adj, s.sccs)
    ensures steps == |adj| + |Edges(adj)|
  {
    hide Ascending, Chain, Segments, ScannedEdges, LowLinks, Frames, EdgesGoBack, Edges, IsScc, Union;
    forall v | v in adj
      ensures v in s.disc && !Open(s, v)
    {
      assert v in Elements(vertices);
    }
    assert s.disc.Keys - Elements(s.path) == adj.Keys;
    WorkOfGraph(adj);
  }

  // All neighbours of the top frame are processed: its component is emitted if it is a root,
  // and its low-link goes to its parent in either case.
  method FinishTop(ghost adj: Adjacency, ghost s: State, timer: nat, disc: map<Vertex, nat>, low: map<Vertex, nat>,
                   onStack: map<Vertex, bool>, stk: seq<Vertex>, sccs: seq<Component>, frames: seq<Frame>)
    returns (low': map<Vertex, nat>, onStack': map<Vertex, bool>, stk': seq<Vertex>, sccs': seq<Component>,
             frames': seq<Frame>, ghost s': State)
    requires s == State(timer, disc, low, onStack, stk, s.path, sccs)
    requires Closed(adj) && Inv(adj, s, frames) && frames != [] && Top(frames).idx == |Top(frames).neighbors|
    ensures s' == State(timer, disc, low', onStack', stk', Pop(s.path), sccs')
    ensures frames' == Pop(frames) && Inv(adj, s', frames')
  {
    hide Inv, Counted, Edges, Closed, SccPartition, EdgesGoBack, Bookkeeping, ActivePath, NoDup;
    TopIsKnown(adj, s, frames);
    var cur := Top(frames);
    low', onStack', stk', sccs', frames' := low, onStack, stk, sccs, Pop(frames);
    if low[cur.u] == disc[cur.u] {
      ghost var k := TopPosition(adj, s);
      var comp;
      comp, stk', onStack' := PopComponent(stk, onStack, cur.u, k);
      sccs' := sccs + [comp];
      s' := State(timer, disc, low, onStack', stk', Pop(s.path), sccs');
      EmitKeepsInv(adj, s, frames, k, comp, s');
    } else {
      ReturnKeepsInv(adj, s, frames);
      s' := Return(s);
    }
    var uLow := low[cur.u];
    if frames' != [] {
      low' := Lower(low, Top(frames').u, uLow);
    }
  }

  // The search from one undiscovered vertex: the body of the outer loop.
  method SearchFrom(g: DirectedGraph, start: Vertex, ghost s0: State, ghost steps0: nat, timer0: nat,
                    disc0: map<Vertex, nat>, low0: map<Vertex, nat>, onStack0: map<Vertex, bool>,
                    stk0: seq<Vertex>, sccs0: seq<Component>)
    returns (timer: nat, disc: map<Vertex, nat>, low: map<Vertex, nat>, onStack: map<Vertex, bool>,
             stk: seq<Vertex>, sccs: seq<Component>, ghost s: State, ghost steps: nat)
    requires Closed(g.adj) && start in g.adj && start !in disc0
    requires s0 == State(timer0, disc0, low0, onStack0, stk0, [], sccs0)
    requires Inv(g.adj, s0, []) && Counted(g.adj, disc0.Keys, [], [], steps0)
    ensures s == State(timer, disc, low, onStack, stk, [], sccs)
    ensures Inv(g.adj, s, []) && Counted(g.adj, disc.Keys, [], [], steps)
    ensures disc0.Keys + {start} <= disc.Keys
  {
    hide Inv, Counted, Edges, Closed, SccPartition, EdgesGoBack, Bookkeeping, ActivePath, NoDup;
    ghost var adj := g.adj;
    steps := steps0;
    var nbrs := g.NeighborList(start);
    StartKeepsInv(adj, s0, start, nbrs);
    CountDiscover(adj, disc0.Keys, [], [], steps, start, nbrs);
    disc, low, onStack := disc0[start := timer0], low0[start := timer0], onStack0[start := true];
    assert disc.Keys == disc0.Keys + {start};
    timer := timer0 + 1;
    stk := stk0 + [start];
    sccs := sccs0;
    var frames := [Frame(start, nbrs, 0)];
    assert [] + frames == frames && [] + [start] == [start];
    s := Discover(s0, start);
    while frames != []
      invariant s == State(timer, disc, low, onStack, stk, s.path, sccs) && |s.path| == |frames|
      invariant Inv(adj, s, frames)
      invariant Counted(adj, disc.Keys, s.path, frames, steps)
      invariant disc0.Keys + {start} <= disc.Keys
      decreases adj.Keys - disc.Keys, |frames|, if frames == [] then 0 else |Top(frames).neighbors| - Top(frames).idx
    {
      hide Inv, Counted, Edges, Closed, SccPartition, EdgesGoBack, Bookkeeping, ActivePath, NoDup, Elements, Edge,
           Advance, Lower;
      TopFrame(adj, s, frames);
      var cur := Top(frames);
      if cur.idx < |cur.neighbors| {
        var v := cur.neighbors[cur.idx];
        CountAdvance(adj, disc.Keys, s.path, frames, steps);
        if v !in disc {
          var vnbrs := g.NeighborList(v);
          DescendKeepsInv(adj, s, frames, vnbrs, v);
          CountDiscover(adj, disc.Keys, s.path, Advance(frames), steps + 1, v, vnbrs);
          assert disc[v := timer].Keys == disc.Keys + {v};
          disc, low, onStack := disc[v := timer], low[v := timer], onStack[v := true];
          timer := timer + 1;
          stk := stk + [v];
          frames := Advance(frames) + [Frame(v, vnbrs, 0)];
          s := Discover(s, v);
        } else {
          RelaxKeepsInv(adj, s, frames, v);
          frames := Advance(frames);
          if onStack[v] {
            low := Lower(low, cur.u, disc[v]);
          }
          s := Relax(s, v);
        }
      } else {
        CountReturn(adj, disc.Keys, s.path, frames, steps);
        low, onStack, stk, sccs, frames, s := FinishTop(adj, s, timer, disc, low, onStack, stk, sccs, frames);
      }
      steps := steps + 1;
    }
  }

  /**
   The components of the graph in Tarjan's emission order. `steps` counts the rounds of the
   inner loop over all starting vertices.
   */
  method FindSccs(g: DirectedGraph) returns (sccs: seq<Component>, ghost steps: nat)
    requires g.Valid()
    ensures SccPartition(g.adj, sccs)
    ensures EdgesGoBack(g.adj, sccs)
    ensures steps == |g.adj| + g.edgeCount
  {
    hide Inv, Counted, Edges, Closed, SccPartition, EdgesGoBack, Bookkeeping, ActivePath, NoDup;
    var timer: nat := 0;
    var disc: map<Vertex, nat>, low: map<Vertex, nat>, onStack: map<Vertex, bool> := map[], map[], map[];
    var stk: seq<Vertex> := [];
    sccs, steps := [], 0;
    ghost var s := State(0, map[], map[], map[], [], [], []);
    InitInv(g.adj, s);
    var vertices := g.Vertices();
    for i := 0 to |vertices|
      invariant s == State(timer, disc, low, onStack, stk, [], sccs)
      invariant Inv(g.adj, s, []) && Counted(g.adj, disc.Keys, [], [], steps)
      invariant forall j :: 0 <= j < i ==> vertices[j] in disc
    {
      hide Inv, Counted, Edges, Closed, SccPartition, EdgesGoBack, Bookkeeping, ActivePath, NoDup;
      var start := vertices[i];
      assert start in Elements(vertices);
      if start in disc { continue; }
      timer, disc, low, onStack, stk, sccs, s, steps :=
        SearchFrom(g, start, s, steps, timer, disc, low, onStack, stk, sccs);
    }
    Finished(g.adj, s, vertices, steps);
  }
}
