/**
 The directed graph of `libdsa`: an adjacency map plus a separately kept edge counter.
 The mutable class is specified by its adjacency map; all graph theory is about that map.
 */
module Graphs {
  import opened Words
  import opened Sets

  type Vertex = uint32
  type Adjacency = map<Vertex, set<Vertex>>

  // Every edge ends in a vertex of the graph. `add_edge` inserts both end points, so every
  // graph a client can build is closed.
  ghost predicate Closed(adj: Adjacency) {
    forall u :: u in adj ==> adj[u] <= adj.Keys
  }

  function Neighbors(adj: Adjacency, v: Vertex): set<Vertex> {
    if v in adj then adj[v] else {}
  }

  predicate Edge(adj: Adjacency, u: Vertex, v: Vertex) {
    u in adj && v in adj[u]
  }

  ghost function Edges(adj: Adjacency): set<(Vertex, Vertex)> {
    set u, v | u in adj && v in adj[u] :: (u, v)
  }

  function WithVertex(adj: Adjacency, v: Vertex): Adjacency {
    if v in adj then adj else adj[v := {}]
  }

  function WithEdge(adj: Adjacency, u: Vertex, v: Vertex): Adjacency {
    var a := WithVertex(WithVertex(adj, u), v);
    a[u := a[u] + {v}]
  }

  ghost function TransposeOf(adj: Adjacency): (t: Adjacency)
    ensures t.Keys == adj.Keys
    ensures Closed(t)
    ensures Closed(adj) ==> forall u, v :: Edge(t, v, u) <==> Edge(adj, u, v)
  {
    map v | v in adj :: set u | u in adj && v in adj[u]
  }

  // The elements of an unordered container in whatever order iteration yields them.
  method InSomeOrder(s: set<Vertex>) returns (r: seq<Vertex>)
    ensures NoDup(r) && Elements(r) == s && |r| == |s|
  {
    r := [];
    var rest := s;
    while rest != {}
      invariant NoDup(r) && rest <= s
      invariant Elements(r) == s - rest && |r| + |rest| == |s|
      decreases rest
    {
      var x :| x in rest;
      assert Elements(r + [x]) == Elements(r) + {x};
      r, rest := r + [x], rest - {x};
    }
  }

  lemma InEdges(adj: Adjacency, e: (Vertex, Vertex))
    ensures e in Edges(adj) <==> Edge(adj, e.0, e.1)
  {
  }

  lemma EdgesWithVertex(adj: Adjacency, v: Vertex)
    ensures Edges(WithVertex(adj, v)) == Edges(adj)
    ensures Closed(adj) ==> Closed(WithVertex(adj, v))
  {
    forall e: (Vertex, Vertex)
      ensures e in Edges(WithVertex(adj, v)) <==> e in Edges(adj)
    {
      InEdges(adj, e);
      InEdges(WithVertex(adj, v), e);
    }
  }

  lemma EdgesWithEdge(adj: Adjacency, u: Vertex, v: Vertex)
    ensures Edges(WithEdge(adj, u, v)) == Edges(adj) + {(u, v)}
    ensures Closed(adj) ==> Closed(WithEdge(adj, u, v))
  {
    EdgesWithVertex(adj, u);
    EdgesWithVertex(WithVertex(adj, u), v);
    var a := WithVertex(WithVertex(adj, u), v);
    forall e: (Vertex, Vertex)
      ensures e in Edges(WithEdge(adj, u, v)) <==> e in Edges(a) + {(u, v)}
    {
      InEdges(a, e);
      InEdges(WithEdge(adj, u, v), e);
    }
  }

  lemma EdgeWithEdge(adj: Adjacency, u: Vertex, v: Vertex)
    ensures WithEdge(adj, u, v).Keys == adj.Keys + {u, v}
    ensures forall x, y :: Edge(WithEdge(adj, u, v), x, y) <==> Edge(adj, x, y) || (x == u && y == v)
  {
  }

  lemma EdgesWithoutEdge(adj: Adjacency, u: Vertex, v: Vertex)
    requires u in adj
    ensures Edges(adj[u := adj[u] - {v}]) == Edges(adj) - {(u, v)}
  {
    forall e: (Vertex, Vertex)
      ensures e in Edges(adj[u := adj[u] - {v}]) <==> e in Edges(adj) - {(u, v)}
    {
      InEdges(adj, e);
      InEdges(adj[u := adj[u] - {v}], e);
    }
  }

  // `t` holds the reversed edges of the vertices in `done`, and those vertices.
  ghost predicate TransposedUpTo(t: Adjacency, adj: Adjacency, done: set<Vertex>) {
    && done <= t.Keys <= adj.Keys
    && forall x, y :: Edge(t, y, x) <==> Edge(adj, x, y) && x in done
  }

  lemma TransposeStep(t: Adjacency, t': Adjacency, adj: Adjacency, done: set<Vertex>, u: Vertex)
    requires Closed(adj) && u in adj
    requires TransposedUpTo(t, adj, done)
    requires t'.Keys == t.Keys + {u} + adj[u]
    requires forall x, y :: Edge(t', y, x) <==> Edge(WithVertex(t, u), y, x) || (x == u && y in adj[u])
    ensures TransposedUpTo(t', adj, done + {u})
  {
    assert forall x, y :: Edge(WithVertex(t, u), y, x) <==> Edge(t, y, x);
  }

  class DirectedGraph {
    var adj: Adjacency
    var edgeCount: nat

    ghost predicate Valid()
      reads this
    {
      Closed(adj) && edgeCount == |Edges(adj)|
    }

    constructor ()
      ensures Valid() && adj == map[] && edgeCount == 0
    {
      adj, edgeCount := map[], 0;
    }

    method AddVertex(v: Vertex)
      requires Valid()
      modifies this
      ensures Valid() && adj == WithVertex(old(adj), v)
      ensures edgeCount == old(edgeCount)
    {
      if v !in adj {
        EdgesWithVertex(adj, v);
        adj := adj[v := {}];
      }
    }

    method AddEdge(u: Vertex, v: Vertex)
      requires Valid()
      modifies this
      ensures Valid() && adj == WithEdge(old(adj), u, v)
      ensures Edges(adj) == Edges(old(adj)) + {(u, v)}
    {
      EdgesWithEdge(adj, u, v);
      InEdges(adj, (u, v));
      AddVertex(u);
      AddVertex(v);
      var inserted := v !in adj[u];
      adj := adj[u := adj[u] + {v}];
      if inserted {
        edgeCount := edgeCount + 1;
      }
    }

    method RemoveEdge(u: Vertex, v: Vertex)
      requires Valid()
      modifies this
      ensures Valid() && adj.Keys == old(adj).Keys
      ensures Edges(adj) == Edges(old(adj)) - {(u, v)}
    {
      if u in adj {
        InEdges(adj, (u, v));
        var erased := v in adj[u];
        adj := adj[u := adj[u] - {v}];
        EdgesWithoutEdge(old(adj), u, v);
        if erased {
          edgeCount := edgeCount - 1;
        }
      }
    }

    method HasVertex(v: Vertex) returns (b: bool)
      ensures b <==> v in adj
    {
      b := v in adj;
    }

    method HasEdge(u: Vertex, v: Vertex) returns (b: bool)
      ensures b <==> (u, v) in Edges(adj)
    {
      if u !in adj { return false; }
      b := v in adj[u];
    }

    // A copy of the neighbour set, in iteration order.
    method NeighborList(v: Vertex) returns (r: seq<Vertex>)
      ensures NoDup(r) && Elements(r) == Neighbors(adj, v) && |r| == |Neighbors(adj, v)|
    {
      r := InSomeOrder(Neighbors(adj, v));
    }

    method Vertices() returns (r: seq<Vertex>)
      ensures NoDup(r) && Elements(r) == adj.Keys && |r| == |adj|
    {
      r := InSomeOrder(adj.Keys);
    }

    // The inner loop of `transpose`: an edge to `u` from every vertex of `vs`.
    method AddEdgesInto(vs: seq<Vertex>, u: Vertex)
      requires Valid() && u in adj
      modifies this
      ensures Valid() && adj.Keys == old(adj).Keys + Elements(vs)
      ensures forall x, y :: Edge(adj, y, x) <==> Edge(old(adj), y, x) || (x == u && y in vs)
    {
      hide Edges, Closed;
      for j := 0 to |vs|
        invariant Valid() && u in adj
        invariant adj.Keys == old(adj).Keys + Elements(vs[..j])
        invariant forall x, y :: Edge(adj, y, x) <==> Edge(old(adj), y, x) || (x == u && y in vs[..j])
      {
        hide Edges, Closed;
        assert vs[..j + 1] == vs[..j] + [vs[j]];
        EdgeWithEdge(adj, vs[j], u);
        AddEdge(vs[j], u);
      }
      assert vs[..|vs|] == vs;
    }

    method Transpose() returns (gt: DirectedGraph)
      requires Valid()
      ensures fresh(gt) && gt.Valid()
      ensures gt.adj == TransposeOf(adj) && gt.edgeCount == edgeCount
    {
      gt := new DirectedGraph();
      var us := Vertices();
      for i := 0 to |us|
        invariant gt.Valid() && fresh(gt)
        invariant TransposedUpTo(gt.adj, adj, Elements(us[..i]))
      {
        assert us[i] in Elements(us);
        assert Elements(us[..i + 1]) == Elements(us[..i]) + {us[i]};
        ReverseOutEdges(us[i], gt, Elements(us[..i]));
      }
      assert us[..|us|] == us;
      SameEdges(gt.adj, adj);
      TransposeEdgeCount(adj);
    }

    // One round of the outer loop of `transpose`.
    method ReverseOutEdges(u: Vertex, gt: DirectedGraph, ghost done: set<Vertex>)
      requires gt != this && Valid() && gt.Valid() && u in adj
      requires TransposedUpTo(gt.adj, adj, done)
      modifies gt
      ensures gt.Valid() && TransposedUpTo(gt.adj, adj, done + {u})
    {
      ghost var before := gt.adj;
      gt.AddVertex(u);
      var vs := NeighborList(u);
      gt.AddEdgesInto(vs, u);
      assert Elements(vs) == adj[u];
      assert forall y :: y in vs <==> y in Elements(vs);
      TransposeStep(before, gt.adj, adj, done, u);
    }

    method Clear()
      modifies this
      ensures Valid() && adj == map[] && edgeCount == 0
    {
      adj, edgeCount := map[], 0;
    }
  }

  // A graph on the same vertices with exactly the reversed edges is the transpose.
  lemma SameEdges(t: Adjacency, adj: Adjacency)
    requires Closed(adj) && t.Keys == adj.Keys
    requires forall u, v :: Edge(t, v, u) <==> Edge(adj, u, v)
    ensures t == TransposeOf(adj)
  {
    forall v | v in t
      ensures t[v] == TransposeOf(adj)[v]
    {
      forall u: Vertex
        ensures u in t[v] <==> u in TransposeOf(adj)[v]
      {
        assert u in t[v] <==> Edge(t, v, u);
      }
    }
  }

  // Reversing every edge keeps the number of edges.
  lemma TransposeEdgeCount(adj: Adjacency)
    requires Closed(adj)
    ensures |Edges(TransposeOf(adj))| == |Edges(adj)|
  {
    var e, t := Edges(adj), Edges(TransposeOf(adj));
    assert forall u, v :: (v, u) in t <==> (u, v) in e;
    SwapCardinality(e, t);
  }

  lemma SwapCardinality(e: set<(Vertex, Vertex)>, t: set<(Vertex, Vertex)>)
    requires forall u, v :: (v, u) in t <==> (u, v) in e
    ensures |t| == |e|
  {
    if e == {} {
      assert forall p :: p in t ==> (p.1, p.0) in e;
    } else {
      var p :| p in e;
      assert (p.1, p.0) in t;
      SwapCardinality(e - {p}, t - {(p.1, p.0)});
    }
  }
}
