/** Paths, reachability, and the work a traversal does on a set of vertices. */
module Paths {
  import opened Graphs

  ghost predicate IsPath(adj: Adjacency, p: seq<Vertex>, u: Vertex, v: Vertex) {
    && |p| > 0 && p[0] == u && p[|p| - 1] == v
    && forall i :: 0 < i < |p| ==> Edge(adj, p[i - 1], p[i])
  }

  ghost predicate Reach(adj: Adjacency, u: Vertex, v: Vertex) {
    exists p :: IsPath(adj, p, u, v)
  }

  lemma ReachSelf(adj: Adjacency, u: Vertex)
    ensures Reach(adj, u, u)
  {
    assert IsPath(adj, [u], u, u);
  }

  lemma ReachEdge(adj: Adjacency, u: Vertex, v: Vertex)
    requires Edge(adj, u, v)
    ensures Reach(adj, u, v)
  {
    assert IsPath(adj, [u, v], u, v);
  }

  lemma ReachTrans(adj: Adjacency, u: Vertex, v: Vertex, w: Vertex)
    requires Reach(adj, u, v) && Reach(adj, v, w)
    ensures Reach(adj, u, w)
  {
    var p :| IsPath(adj, p, u, v);
    var q :| IsPath(adj, q, v, w);
    assert IsPath(adj, p + q[1..], u, w);
  }

  lemma ReachStep(adj: Adjacency, u: Vertex, v: Vertex, w: Vertex)
    requires Reach(adj, u, v) && Edge(adj, v, w)
    ensures Reach(adj, u, w)
  {
    ReachEdge(adj, v, w);
    ReachTrans(adj, u, v, w);
  }

  // Every vertex of a path is reached from its start and reaches its end.
  lemma OnPath(adj: Adjacency, p: seq<Vertex>, u: Vertex, v: Vertex, i: nat)
    requires IsPath(adj, p, u, v) && i < |p|
    ensures Reach(adj, u, p[i]) && Reach(adj, p[i], v)
  {
    assert IsPath(adj, p[..i + 1], u, p[i]);
    assert IsPath(adj, p[i..], p[i], v);
  }

  // A set that no edge leaves holds everything reachable from its members.
  lemma {:induction false} StaysInside(adj: Adjacency, s: set<Vertex>, u: Vertex, v: Vertex)
    requires forall x, y :: x in s && Edge(adj, x, y) ==> y in s
    requires u in s && Reach(adj, u, v)
    ensures v in s
  {
    var p :| IsPath(adj, p, u, v);
    for i := 1 to |p|
      invariant p[i - 1] in s
    {
    }
  }

  // A path from outside a set into it has an edge that enters the set.
  lemma EntersAt(adj: Adjacency, s: set<Vertex>, p: seq<Vertex>, u: Vertex, v: Vertex) returns (i: nat)
    requires IsPath(adj, p, u, v) && u !in s && v in s
    ensures 0 < i < |p| && p[i - 1] !in s && p[i] in s
  {
    i := 1;
    while p[i] !in s
      invariant 0 < i < |p| && p[i - 1] !in s
      decreases |p| - i
    {
      i := i + 1;
    }
  }

  lemma ReachTranspose(adj: Adjacency, u: Vertex, v: Vertex)
    requires Closed(adj)
    ensures Reach(TransposeOf(adj), v, u) <==> Reach(adj, u, v)
  {
    var t := TransposeOf(adj);
    if Reach(adj, u, v) {
      var p :| IsPath(adj, p, u, v);
      assert IsPath(t, seq(|p|, i requires 0 <= i < |p| => p[|p| - 1 - i]), v, u);
    }
    if Reach(t, v, u) {
      var p :| IsPath(t, p, v, u);
      assert IsPath(adj, seq(|p|, i requires 0 <= i < |p| => p[|p| - 1 - i]), u, v);
    }
  }

  // One unit of work for each vertex of `s` and one for each edge that leaves it.
  ghost function Work(adj: Adjacency, s: set<Vertex>): nat
    requires s <= adj.Keys
  {
    if s == {} then 0 else
      var v :| v in s;
      1 + |adj[v]| + Work(adj, s - {v})
  }

  lemma {:induction false} WorkAdd(adj: Adjacency, s: set<Vertex>, v: Vertex)
    requires s <= adj.Keys && v in adj && v !in s
    ensures Work(adj, s + {v}) == Work(adj, s) + 1 + |adj[v]|
  {
    var t := s + {v};
    var w :| w in t && Work(adj, t) == 1 + |adj[w]| + Work(adj, t - {w});
    if w == v {
      assert t - {v} == s;
    } else {
      assert t - {w} == (s - {w}) + {v};
      WorkAdd(adj, s - {w}, v);
      assert s == (s - {w}) + {w};
      WorkAdd(adj, s - {w}, w);
    }
  }

  lemma {:induction false} WorkMonotone(adj: Adjacency, s: set<Vertex>, t: set<Vertex>)
    requires s <= t <= adj.Keys
    ensures Work(adj, s) <= Work(adj, t)
    decreases t - s
  {
    if s == t {
    } else {
      var v :| v in t && v !in s;
      WorkAdd(adj, s, v);
      WorkMonotone(adj, s + {v}, t);
    }
  }

  // Over the whole graph the work is the number of vertices plus the number of edges.
  lemma WorkOfGraph(adj: Adjacency)
    ensures Work(adj, adj.Keys) == |adj| + |Edges(adj)|
  {
    WorkCounts(adj, adj.Keys);
    assert Edges(adj) == EdgesFrom(adj, adj.Keys);
  }

  ghost function EdgesFrom(adj: Adjacency, s: set<Vertex>): set<(Vertex, Vertex)>
    requires s <= adj.Keys
  {
    set u, v | u in s && v in adj[u] :: (u, v)
  }

  lemma {:induction false} WorkCounts(adj: Adjacency, s: set<Vertex>)
    requires s <= adj.Keys
    ensures Work(adj, s) == |s| + |EdgesFrom(adj, s)|
  {
    if s == {} {
      assert EdgesFrom(adj, s) == {};
    } else {
      var v :| v in s;
      var out := set y | y in adj[v] :: (v, y);
      assert EdgesFrom(adj, s) == EdgesFrom(adj, s - {v}) + out;
      assert EdgesFrom(adj, s - {v}) !! out;
      FanOut(v, adj[v], out);
      WorkCounts(adj, s - {v});
      assert s == (s - {v}) + {v};
      WorkAdd(adj, s - {v}, v);
    }
  }

  lemma {:induction false} FanOut(v: Vertex, ys: set<Vertex>, out: set<(Vertex, Vertex)>)
    requires out == set y | y in ys :: (v, y)
    ensures |out| == |ys|
  {
    if ys == {} {
      assert out == {};
    } else {
      var y :| y in ys;
      FanOut(v, ys - {y}, out - {(v, y)});
    }
  }
}
