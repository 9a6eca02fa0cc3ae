/**
 `Kosaraju::find_sccs`: a depth-first search that records finishing order with an explicit stack
 of (vertex, post-visit) entries, then searches of the transpose in reverse finishing order.
 Entries whose vertex was visited in the meantime stay on the stack and are skipped when popped.
 */
module Kosaraju {
  import opened Graphs
  import opened Paths
  import opened Scc
  import opened Sets
  import opened Stacks

  datatype Entry = Entry(u: Vertex, post: bool)

  // ---- Pass 1: the invariant ----

  ghost predicate Marker(dfs: seq<Entry>, i: int, v: Vertex) {
    0 <= i < |dfs| && dfs[i] == Entry(v, true)
  }

  // The active vertices, visited but not finished, are those with a post-visit marker.
  ghost predicate Marked(adj: Adjacency, visited: set<Vertex>, fin: seq<Vertex>, dfs: seq<Entry>) {
    && visited <= adj.Keys && NoDup(fin) && (forall v :: v in fin ==> v in visited)
    && (forall i :: 0 <= i < |dfs| ==> dfs[i].u in adj)
    && (forall i, v :: Marker(dfs, i, v) ==> v in visited && v !in fin)
    && (forall i, j, v :: Marker(dfs, i, v) && Marker(dfs, j, v) ==> i == j)
    && (forall v :: v in visited && v !in fin ==> exists i :: Marker(dfs, i, v))
  }

  // An active vertex reaches everything above its marker.
  ghost predicate Descends(adj: Adjacency, dfs: seq<Entry>) {
    forall i, j :: 0 <= i < j < |dfs| && dfs[i].post ==> Reach(adj, dfs[i].u, dfs[j].u)
  }

  ghost predicate Above(dfs: seq<Entry>, i: int, x: Vertex) {
    exists j :: i < j < |dfs| && 0 <= j && dfs[j].u == x
  }

  // The neighbours of an active vertex are visited or waiting above its marker; those of a
  // finished vertex are visited.
  ghost predicate Covered(adj: Adjacency, visited: set<Vertex>, fin: seq<Vertex>, dfs: seq<Entry>) {
    && (forall i, v, x :: Marker(dfs, i, v) && Edge(adj, v, x) ==> x in visited || Above(dfs, i, x))
    && (forall v, x :: v in fin && Edge(adj, v, x) ==> x in visited)
  }

  // When an edge leads to a vertex that finishes later, everything finished in between is
  // reached from that vertex.
  ghost predicate FinishOrder(adj: Adjacency, fin: seq<Vertex>) {
    forall i, j, b :: 0 <= i <= j < |fin| && Edge(adj, fin[i], b) && b !in fin[..i + 1] && b !in fin[..j] ==>
      Reach(adj, b, fin[j])
  }

  ghost predicate Pass1(adj: Adjacency, visited: set<Vertex>, fin: seq<Vertex>, dfs: seq<Entry>) {
    && Marked(adj, visited, fin, dfs) && Descends(adj, dfs)
    && Covered(adj, visited, fin, dfs) && FinishOrder(adj, fin)
  }

  // ---- Pass 1: the steps ----

  lemma PushStart(adj: Adjacency, visited: set<Vertex>, fin: seq<Vertex>, start: Vertex)
    requires Pass1(adj, visited, fin, []) && start in adj
    ensures Pass1(adj, visited, fin, [Entry(start, false)])
  {
    assert forall i, v :: !Marker([], i, v);
  }

  // Popping an entry whose vertex is already visited.
  lemma SkipVisited(adj: Adjacency, visited: set<Vertex>, fin: seq<Vertex>, dfs: seq<Entry>)
    requires Pass1(adj, visited, fin, dfs) && dfs != []
    requires !Top(dfs).post && Top(dfs).u in visited
    ensures Pass1(adj, visited, fin, Pop(dfs))
  {
    var dfs' := Pop(dfs);
    forall i, v
      ensures Marker(dfs', i, v) <==> Marker(dfs, i, v)
    {
    }
    forall i, v, x | Marker(dfs', i, v) && Edge(adj, v, x)
      ensures x in visited || Above(dfs', i, x)
    {
      assert Marker(dfs, i, v);
      if x !in visited {
        var j :| i < j < |dfs| && 0 <= j && dfs[j].u == x;
        assert dfs'[j].u == x;
      }
    }
  }

  // The children pushed above the marker of `u`.
  ghost predicate Children(adj: Adjacency, visited: set<Vertex>, u: Vertex, kids: seq<Entry>) {
    && (forall i :: 0 <= i < |kids| ==> !kids[i].post && Edge(adj, u, kids[i].u))
    && (forall x :: Edge(adj, u, x) && x !in visited ==> exists i :: 0 <= i < |kids| && kids[i].u == x)
  }

  lemma VisitMarked(adj: Adjacency, visited: set<Vertex>, fin: seq<Vertex>, dfs: seq<Entry>, kids: seq<Entry>)
    requires Closed(adj) && Marked(adj, visited, fin, dfs) && dfs != []
    requires !Top(dfs).post && Top(dfs).u !in visited
    requires Children(adj, visited + {Top(dfs).u}, Top(dfs).u, kids)
    ensures Marked(adj, visited + {Top(dfs).u}, fin, Pop(dfs) + [Entry(Top(dfs).u, true)] + kids)
    ensures forall i, v :: Marker(Pop(dfs) + [Entry(Top(dfs).u, true)] + kids, i, v) <==>
        Marker(dfs, i, v) || (i == |dfs| - 1 && v == Top(dfs).u)
  {
    var u, n := Top(dfs).u, |dfs| - 1;
    var dfs' := Pop(dfs) + [Entry(u, true)] + kids;
    forall i, v
      ensures Marker(dfs', i, v) <==> Marker(dfs, i, v) || (i == n && v == u)
    {
      if n < i < |dfs'| {
        assert dfs'[i] == kids[i - n - 1];
      }
    }
    assert Marker(dfs', n, u);
    forall v | v in visited && v !in fin
      ensures exists i :: Marker(dfs', i, v)
    {
      var i :| Marker(dfs, i, v);
      assert Marker(dfs', i, v);
    }
    forall i | 0 <= i < |dfs'|
      ensures dfs'[i].u in adj
    {
      if n < i {
        assert dfs'[i] == kids[i - n - 1];
      }
    }
  }

  lemma VisitDescends(adj: Adjacency, dfs: seq<Entry>, visited: set<Vertex>, kids: seq<Entry>)
    requires Descends(adj, dfs) && dfs != []
    requires Children(adj, visited, Top(dfs).u, kids)
    ensures Descends(adj, Pop(dfs) + [Entry(Top(dfs).u, true)] + kids)
  {
    var u, n := Top(dfs).u, |dfs| - 1;
    var dfs' := Pop(dfs) + [Entry(u, true)] + kids;
    assert forall k :: n < k < |dfs'| ==> dfs'[k] == kids[k - n - 1];
    forall i, j | 0 <= i < j < |dfs'| && dfs'[i].post
      ensures Reach(adj, dfs'[i].u, dfs'[j].u)
    {
      if n < j {
        ReachSelf(adj, u);
        ReachStep(adj, dfs'[i].u, u, dfs'[j].u);
      }
    }
  }

  lemma VisitCovered(adj: Adjacency, visited: set<Vertex>, fin: seq<Vertex>, dfs: seq<Entry>, kids: seq<Entry>)
    requires Covered(adj, visited, fin, dfs) && dfs != []
    requires Children(adj, visited + {Top(dfs).u}, Top(dfs).u, kids)
    requires forall i, v :: Marker(Pop(dfs) + [Entry(Top(dfs).u, true)] + kids, i, v) <==>
        Marker(dfs, i, v) || (i == |dfs| - 1 && v == Top(dfs).u)
    ensures Covered(adj, visited + {Top(dfs).u}, fin, Pop(dfs) + [Entry(Top(dfs).u, true)] + kids)
  {
    var u, n := Top(dfs).u, |dfs| - 1;
    var dfs' := Pop(dfs) + [Entry(u, true)] + kids;
    forall i, v, x | Marker(dfs', i, v) && Edge(adj, v, x) && x !in visited && x != u
      ensures Above(dfs', i, x)
    {
      if i == n {
        assert v == u;
        var j :| 0 <= j < |kids| && kids[j].u == x;
        assert dfs'[n + 1 + j].u == x;
      } else {
        assert Marker(dfs, i, v);
        var j :| i < j < |dfs| && 0 <= j && dfs[j].u == x;
        assert dfs'[j].u == x;
      }
    }
  }

  lemma Visit(adj: Adjacency, visited: set<Vertex>, fin: seq<Vertex>, dfs: seq<Entry>, kids: seq<Entry>)
    requires Closed(adj) && Pass1(adj, visited, fin, dfs) && dfs != []
    requires !Top(dfs).post && Top(dfs).u !in visited
    requires Children(adj, visited + {Top(dfs).u}, Top(dfs).u, kids)
    ensures Pass1(adj, visited + {Top(dfs).u}, fin, Pop(dfs) + [Entry(Top(dfs).u, true)] + kids)
  {
    hide Children, Marked, Descends, Covered, FinishOrder;
    VisitMarked(adj, visited, fin, dfs, kids);
    VisitDescends(adj, dfs, visited + {Top(dfs).u}, kids);
    VisitCovered(adj, visited, fin, dfs, kids);
  }

  // Popping the marker of `c`: everything still active reaches `c`.
  lemma FinishKeepsOrder(adj: Adjacency, visited: set<Vertex>, fin: seq<Vertex>, dfs: seq<Entry>)
    requires Pass1(adj, visited, fin, dfs) && dfs != [] && Top(dfs).post
    ensures FinishOrder(adj, fin + [Top(dfs).u])
  {
    var c, n := Top(dfs).u, |fin|;
    var fin' := fin + [c];
    assert Marker(dfs, |dfs| - 1, c);
    forall i, j, b | 0 <= i <= j < |fin'| && Edge(adj, fin'[i], b) && b !in fin'[..i + 1] && b !in fin'[..j]
      ensures Reach(adj, b, fin'[j])
    {
      if j < n {
        assert fin'[..i + 1] == fin[..i + 1] && fin'[..j] == fin[..j];
      } else {
        assert fin'[..n] == fin;
        ActiveReaches(adj, visited, fin, dfs, fin'[i], b);
      }
    }
  }

  // A successor of a finished or finishing vertex that is not finished is active, and so
  // reaches the finishing vertex.
  lemma ActiveReaches(adj: Adjacency, visited: set<Vertex>, fin: seq<Vertex>, dfs: seq<Entry>, a: Vertex, b: Vertex)
    requires Marked(adj, visited, fin, dfs) && Descends(adj, dfs) && Covered(adj, visited, fin, dfs)
    requires dfs != [] && Top(dfs).post && (a in fin || a == Top(dfs).u)
    requires Edge(adj, a, b) && b !in fin
    ensures Reach(adj, b, Top(dfs).u)
  {
    var c, n := Top(dfs).u, |dfs| - 1;
    assert Marker(dfs, n, c);
    assert b in visited by {
      if a == c {
        assert !Above(dfs, n, b);
      }
    }
    var i :| Marker(dfs, i, b);
    if i == n {
      ReachSelf(adj, c);
    }
  }

  lemma Finish(adj: Adjacency, visited: set<Vertex>, fin: seq<Vertex>, dfs: seq<Entry>)
    requires Pass1(adj, visited, fin, dfs) && dfs != [] && Top(dfs).post
    ensures Pass1(adj, visited, fin + [Top(dfs).u], Pop(dfs))
  {
    FinishKeepsOrder(adj, visited, fin, dfs);
    FinishMarked(adj, visited, fin, dfs);
    FinishCovered(adj, visited, fin, dfs);
  }

  lemma FinishMarked(adj: Adjacency, visited: set<Vertex>, fin: seq<Vertex>, dfs: seq<Entry>)
    requires Marked(adj, visited, fin, dfs) && dfs != [] && Top(dfs).post
    ensures Marked(adj, visited, fin + [Top(dfs).u], Pop(dfs))
  {
    var c, n, dfs' := Top(dfs).u, |dfs| - 1, Pop(dfs);
    assert Marker(dfs, n, c);
    forall i, v
      ensures Marker(dfs', i, v) <==> Marker(dfs, i, v) && i != n
      ensures Marker(dfs', i, v) ==> v != c
    {
    }
    forall v | v in visited && v !in fin + [c]
      ensures exists i :: Marker(dfs', i, v)
    {
      var i :| Marker(dfs, i, v);
      assert Marker(dfs', i, v);
    }
  }

  lemma FinishCovered(adj: Adjacency, visited: set<Vertex>, fin: seq<Vertex>, dfs: seq<Entry>)
    requires Marked(adj, visited, fin, dfs) && Covered(adj, visited, fin, dfs) && dfs != [] && Top(dfs).post
    ensures Covered(adj, visited, fin + [Top(dfs).u], Pop(dfs))
  {
    var c, n, dfs' := Top(dfs).u, |dfs| - 1, Pop(dfs);
    assert Marker(dfs, n, c);
    forall x | Edge(adj, c, x)
      ensures x in visited
    {
      assert !Above(dfs, n, x);
    }
    forall i, v, x | Marker(dfs', i, v) && Edge(adj, v, x) && x !in visited
      ensures Above(dfs', i, x)
    {
      assert Marker(dfs, i, v);
      var j :| i < j < |dfs| && 0 <= j && dfs[j].u == x;
      assert dfs'[j].u == x;
    }
  }

  // ---- What the finishing order is good for ----

  // The path from a vertex to one that finishes later passes through a vertex of its own
  // component that finishes later, too.
  lemma FinishesLater(adj: Adjacency, fin: seq<Vertex>, i: nat, j: nat) returns (m: nat)
    requires Closed(adj) && FinishOrder(adj, fin) && NoDup(fin) && Elements(fin) == adj.Keys
    requires i < j < |fin| && Reach(adj, fin[i], fin[j])
    ensures i < m < |fin| && Mutual(adj, fin[i], fin[m]) && Reach(adj, fin[m], fin[j])
  {
    var p :| IsPath(adj, p, fin[i], fin[j]);
    assert forall q :: i < q < |fin| ==> fin[q] == fin[i + 1..][q - i - 1];
    var e := EntersAt(adj, Elements(fin[i + 1..]), p, fin[i], fin[j]);
    OnPath(adj, p, fin[i], fin[j], e);
    var l :| 0 <= l < |fin[i + 1..]| && fin[i + 1..][l] == p[e];
    m := l + i + 1;
    assert p[e - 1] in Elements(fin);
    var a :| 0 <= a < |fin| && fin[a] == p[e - 1];
    ReachesBack(adj, fin, a, i, m);
  }

  lemma ReachesBack(adj: Adjacency, fin: seq<Vertex>, a: nat, i: nat, m: nat)
    requires FinishOrder(adj, fin) && NoDup(fin)
    requires a <= i < m < |fin| && Edge(adj, fin[a], fin[m])
    ensures Reach(adj, fin[m], fin[i])
  {
    assert fin[m] !in fin[..a + 1] && fin[m] !in fin[..i];
  }

  /**
   If one vertex reaches another, some vertex of its component finishes no earlier than the
   other does.
   */
  lemma {:induction false} LatestFinish(adj: Adjacency, fin: seq<Vertex>, i: nat, j: nat) returns (k: nat)
    requires Closed(adj) && FinishOrder(adj, fin) && NoDup(fin) && Elements(fin) == adj.Keys
    requires i < |fin| && j < |fin| && Reach(adj, fin[i], fin[j])
    ensures j <= k < |fin| && Mutual(adj, fin[i], fin[k])
    decreases |fin| - i
  {
    if j <= i {
      k := i;
      ReachSelf(adj, fin[i]);
    } else {
      var m := FinishesLater(adj, fin, i, j);
      k := LatestFinish(adj, fin, m, j);
      MutualVia(adj, fin[i], fin[m], fin[k]);
    }
  }

  /**
   The textbook property: when an edge leads from one component to another, some vertex of the
   first finishes after every vertex of the second.
   */
  lemma ComponentsFinishInOrder(adj: Adjacency, fin: seq<Vertex>, c: set<Vertex>, d: set<Vertex>, u: Vertex, v: Vertex)
    returns (k: nat)
    requires Closed(adj) && FinishOrder(adj, fin) && NoDup(fin) && Elements(fin) == adj.Keys
    requires IsScc(adj, c) && IsScc(adj, d) && c != d
    requires u in c && v in d && Edge(adj, u, v)
    ensures k < |fin| && fin[k] in c
    ensures forall m :: 0 <= m < |fin| && fin[m] in d ==> m < k
  {
    assert u in Elements(fin) && v in Elements(fin);
    var i :| 0 <= i < |fin| && fin[i] == u;
    var j :| 0 <= j < |fin| && fin[j] == v;
    for n := 0 to |fin|
      invariant 0 <= j < |fin| && fin[j] in d
      invariant forall m :: 0 <= m < n && fin[m] in d ==> m <= j
    {
      if fin[n] in d && j < n {
        j := n;
      }
    }
    ReachEdge(adj, u, v);
    ReachTrans(adj, u, v, fin[j]);
    k := LatestFinish(adj, fin, i, j);
    if k == j {
      SameScc(adj, c, d, fin[k]);
    }
  }

  // ---- Pass 2 ----

  // Everything that finished from position `n` on is in an emitted component, and the emitted
  // components are strongly connected components that no edge enters from outside.
  ghost predicate Pass2(adj: Adjacency, fin: seq<Vertex>, n: nat, cs: seq<Component>) {
    && n <= |fin| && (forall k :: n <= k < |fin| ==> fin[k] in Union(cs))
    && Union(cs) <= adj.Keys
    && (forall i :: 0 <= i < |cs| ==> NoDup(cs[i]) && IsScc(adj, Elements(cs[i])))
    && (forall i, j :: 0 <= i < j < |cs| ==> Elements(cs[i]) !! Elements(cs[j]))
    && EdgesGoOn(adj, cs)
  }

  // The search of the transpose from `root`, with what it has collected in `comp`.
  ghost predicate Collecting(adj: Adjacency, root: Vertex, cs: seq<Component>, comp: Component, dfs: seq<Vertex>) {
    && NoDup(comp)
    && (forall x :: x in comp ==> x in adj && x !in Union(cs) && Mutual(adj, root, x))
    && (forall x :: x in dfs ==> x in adj && Reach(adj, x, root))
    && (forall x, y :: x in comp && Edge(adj, y, x) ==> y in Union(cs) || y in comp || y in dfs)
    && (root in comp || root in dfs)
  }

  lemma SccContains(adj: Adjacency, cs: seq<Component>, x: Vertex, y: Vertex)
    requires forall i :: 0 <= i < |cs| ==> IsScc(adj, Elements(cs[i]))
    requires x in Union(cs) && Mutual(adj, x, y)
    ensures y in Union(cs)
  {
    var i := IndexOf(cs, x);
    assert IsScc(adj, Elements(cs[i]));
    assert y in Elements(cs[i]);
    assert y in cs[i];
  }

  // An unvisited vertex that reaches the root of the search is in the root's component.
  lemma ReachesRoot(adj: Adjacency, fin: seq<Vertex>, n: nat, cs: seq<Component>, x: Vertex)
    requires Closed(adj) && FinishOrder(adj, fin) && NoDup(fin) && Elements(fin) == adj.Keys
    requires n < |fin| && Pass2(adj, fin, n + 1, cs) && fin[n] !in Union(cs)
    requires x in adj && x !in Union(cs) && Reach(adj, x, fin[n])
    ensures Mutual(adj, fin[n], x)
  {
    assert x in Elements(fin);
    var i :| 0 <= i < |fin| && fin[i] == x;
    var k := LatestFinish(adj, fin, i, n);
    if k > n {
      SccContains(adj, cs, fin[k], x);
    }
  }

  lemma CollectStep(adj: Adjacency, root: Vertex, cs: seq<Component>, comp: Component, dfs: seq<Vertex>,
                    kids: seq<Vertex>)
    requires Closed(adj) && Collecting(adj, root, cs, comp, dfs) && dfs != []
    requires Top(dfs) !in Union(cs) && Top(dfs) !in comp && Mutual(adj, root, Top(dfs))
    requires forall y :: y in kids ==> y in adj && Edge(adj, y, Top(dfs))
    requires forall y :: Edge(adj, y, Top(dfs)) ==> y in Union(cs) || y in comp || y == Top(dfs) || y in kids
    ensures Collecting(adj, root, cs, comp + [Top(dfs)], Pop(dfs) + kids)
  {
    var u := Top(dfs);
    assert dfs == Pop(dfs) + [u];
    forall x | x in kids
      ensures Reach(adj, x, root)
    {
      ReachEdge(adj, x, u);
      ReachTrans(adj, x, u, root);
    }
  }

  lemma CollectSkip(adj: Adjacency, root: Vertex, cs: seq<Component>, comp: Component, dfs: seq<Vertex>)
    requires Collecting(adj, root, cs, comp, dfs) && dfs != [] && root !in Union(cs)
    requires Top(dfs) in Union(cs) || Top(dfs) in comp
    ensures Collecting(adj, root, cs, comp, Pop(dfs))
  {
    assert dfs == Pop(dfs) + [Top(dfs)];
  }

  // No edge enters the components emitted so far together with the collected one.
  lemma CollectedIsClosed(adj: Adjacency, root: Vertex, cs: seq<Component>, comp: Component, x: Vertex, y: Vertex)
    requires Collecting(adj, root, cs, comp, []) && EdgesGoOn(adj, cs)
    requires x in Union(cs) + Elements(comp) && Edge(adj, y, x)
    ensures y in Union(cs) + Elements(comp)
    ensures x in Union(cs) ==> y in Union(cs)
  {
    if x in Union(cs) {
      var i := IndexOf(cs, x);
      var j := IndexOf(cs[..i + 1], y);
      assert y in cs[j];
    }
  }

  lemma CollectedIsScc(adj: Adjacency, root: Vertex, cs: seq<Component>, comp: Component)
    requires Closed(adj) && Collecting(adj, root, cs, comp, []) && EdgesGoOn(adj, cs)
    requires root !in Union(cs)
    requires forall i :: 0 <= i < |cs| ==> IsScc(adj, Elements(cs[i]))
    ensures IsScc(adj, Elements(comp))
  {
    var t, s := TransposeOf(adj), Union(cs) + Elements(comp);
    forall v: Vertex | Mutual(adj, root, v)
      ensures v in comp
    {
      forall x, y | x in s && Edge(t, x, y)
        ensures y in s
      {
        CollectedIsClosed(adj, root, cs, comp, x, y);
      }
      ReachTranspose(adj, v, root);
      StaysInside(t, s, root, v);
      if v in Union(cs) {
        SccContains(adj, cs, v, root);
      }
    }
    SccFromRoot(adj, Elements(comp), root);
  }

  lemma EmitComponent(adj: Adjacency, fin: seq<Vertex>, n: nat, cs: seq<Component>, comp: Component)
    requires Closed(adj) && n < |fin| && Pass2(adj, fin, n + 1, cs) && fin[n] !in Union(cs)
    requires Collecting(adj, fin[n], cs, comp, [])
    ensures Pass2(adj, fin, n, cs + [comp])
  {
    var cs' := cs + [comp];
    CollectedIsScc(adj, fin[n], cs, comp);
    UnionSnoc(cs, comp);
    forall i | 0 <= i < |cs|
      ensures Elements(cs[i]) !! Elements(comp)
    {
      forall v | v in Elements(cs[i])
        ensures v !in comp
      {
        assert v in cs[i];
        assert v in Union(cs);
      }
    }
    forall i, u, v | 0 <= i < |cs'| && v in cs'[i] && Edge(adj, u, v)
      ensures u in Union(cs'[..i + 1])
    {
      if i < |cs| {
        assert cs'[..i + 1] == cs[..i + 1];
      } else {
        assert cs'[..i + 1] == cs';
        CollectedIsClosed(adj, fin[n], cs, comp, v, u);
      }
    }
  }

  // ---- The algorithm ----

  // Every pushed entry is paid for by a starting vertex, a visited vertex or an edge out of one.
  ghost predicate Paid(adj: Adjacency, visited: set<Vertex>, roots: set<Vertex>, dfs: seq<Entry>, pops: nat) {
    && visited <= adj.Keys && roots <= adj.Keys
    && pops + |dfs| <= Work(adj, visited) + |roots|
  }

  lemma PaidBound(adj: Adjacency, visited: set<Vertex>, roots: set<Vertex>, dfs: seq<Entry>, pops: nat)
    requires Paid(adj, visited, roots, dfs, pops)
    ensures pops + |dfs| <= 2 * |adj| + |Edges(adj)|
  {
    WorkMonotone(adj, visited, adj.Keys);
    WorkOfGraph(adj);
    SubsetSize(roots, adj.Keys);
  }

  // Pushes the neighbours of `u` that are not visited.
  method PushUnvisited(g: DirectedGraph, u: Vertex, visited: set<Vertex>, dfs: seq<Entry>)
    returns (dfs': seq<Entry>)
    requires u in g.adj
    ensures |dfs| <= |dfs'| <= |dfs| + |g.adj[u]| && dfs' == dfs + dfs'[|dfs|..]
    ensures Children(g.adj, visited, u, dfs'[|dfs|..])
  {
    var nbrs := g.NeighborList(u);
    ghost var kids: seq<Entry> := [];
    dfs' := dfs;
    for i := 0 to |nbrs|
      invariant dfs' == dfs + kids && |kids| <= i
      invariant forall j :: 0 <= j < |kids| ==> !kids[j].post && kids[j].u in nbrs[..i]
      invariant forall k :: 0 <= k < i && nbrs[k] !in visited ==> exists j :: 0 <= j < |kids| && kids[j].u == nbrs[k]
    {
      var v := nbrs[i];
      if v !in visited {
        ghost var before := kids;
        dfs', kids := dfs' + [Entry(v, false)], kids + [Entry(v, false)];
        assert kids[|before|].u == v;
        assert forall j :: 0 <= j < |before| ==> kids[j] == before[j];
      }
    }
    assert dfs'[|dfs|..] == kids;
    assert forall j :: 0 <= j < |kids| ==> kids[j].u in Elements(nbrs);
    assert forall x :: Edge(g.adj, u, x) ==> x in Elements(nbrs);
  }

  // The first pass from one unvisited vertex: the body of its outer loop.
  method FinishFrom(g: DirectedGraph, start: Vertex, visited0: set<Vertex>, fin0: seq<Vertex>,
                    ghost roots: set<Vertex>, ghost pops0: nat)
    returns (visited: set<Vertex>, fin: seq<Vertex>, ghost pops: nat)
    requires Closed(g.adj) && start in g.adj && start !in visited0
    requires Pass1(g.adj, visited0, fin0, []) && Paid(g.adj, visited0, roots, [], pops0)
    requires start !in roots
    ensures Pass1(g.adj, visited, fin, []) && Paid(g.adj, visited, roots + {start}, [], pops)
    ensures visited0 + {start} <= visited
  {
    hide Pass1, Children, Edges, FinishOrder, NoDup;
    ghost var adj := g.adj;
    visited, fin, pops := visited0, fin0, pops0;
    PushStart(adj, visited, fin, start);
    var dfs := [Entry(start, false)];
    while dfs != []
      invariant Pass1(adj, visited, fin, dfs)
      invariant Paid(adj, visited, roots + {start}, dfs, pops)
      invariant visited0 <= visited && (start in visited || dfs == [Entry(start, false)])
      decreases 2 * |adj| + |Edges(adj)| - pops
    {
      hide Pass1, Children, Edges, FinishOrder, NoDup;
      PaidBound(adj, visited, roots + {start}, dfs, pops);
      var top := Top(dfs);
      var below := Pop(dfs);
      pops := pops + 1;
      if top.post {
        Finish(adj, visited, fin, dfs);
        fin, dfs := fin + [top.u], below;
      } else if top.u in visited {
        SkipVisited(adj, visited, fin, dfs);
        dfs := below;
      } else {
        TopInGraph(adj, visited, fin, dfs);
        var dfs' := PushUnvisited(g, top.u, visited + {top.u}, below + [Entry(top.u, true)]);
        ghost var kids := dfs'[|below| + 1..];
        Visit(adj, visited, fin, dfs, kids);
        WorkAdd(adj, visited, top.u);
        visited, dfs := visited + {top.u}, dfs';
      }
    }
  }

  lemma TopInGraph(adj: Adjacency, visited: set<Vertex>, fin: seq<Vertex>, dfs: seq<Entry>)
    requires Pass1(adj, visited, fin, dfs) && dfs != []
    ensures Top(dfs).u in adj
  {
  }

  // The first pass: every vertex once, in finishing order. `pops` counts the stack entries
  // popped over all starting vertices.
  method FinishingOrder(g: DirectedGraph) returns (fin: seq<Vertex>, ghost pops: nat)
    requires g.Valid()
    ensures NoDup(fin) && Elements(fin) == g.adj.Keys && FinishOrder(g.adj, fin)
    ensures pops <= 2 * |g.adj| + g.edgeCount
  {
    hide Edges, Closed, Pass1, Paid, NoDup, FinishOrder;
    var vertices := g.Vertices();
    var visited: set<Vertex> := {};
    ghost var roots: set<Vertex> := {};
    fin, pops := [], 0;
    NothingVisited(g.adj);
    for i := 0 to |vertices|
      invariant Pass1(g.adj, visited, fin, []) && Paid(g.adj, visited, roots, [], pops)
      invariant roots <= visited && forall j :: 0 <= j < i ==> vertices[j] in visited
    {
      hide Edges, Closed, Pass1, Paid, NoDup, FinishOrder;
      var start := vertices[i];
      assert start in Elements(vertices);
      if start in visited { continue; }
      visited, fin, pops := FinishFrom(g, start, visited, fin, roots, pops);
      roots := roots + {start};
    }
    PaidBound(g.adj, visited, roots, [], pops);
    AllFinished(g.adj, visited, fin, vertices);
  }

  lemma NothingVisited(adj: Adjacency)
    ensures Pass1(adj, {}, [], []) && Paid(adj, {}, {}, [], 0)
  {
  }

  lemma AllFinished(adj: Adjacency, visited: set<Vertex>, fin: seq<Vertex>, vertices: seq<Vertex>)
    requires Pass1(adj, visited, fin, []) && Elements(vertices) == adj.Keys
    requires forall j :: 0 <= j < |vertices| ==> vertices[j] in visited
    ensures NoDup(fin) && Elements(fin) == adj.Keys && FinishOrder(adj, fin)
  {
    assert forall i, v :: !Marker([], i, v);
    forall v | v in adj
      ensures v in visited
    {
      assert v in Elements(vertices);
    }
  }

  // One search of the transpose: the component of `fin[n]`.
  method Collect(gt: DirectedGraph, ghost adj: Adjacency, ghost fin: seq<Vertex>, ghost n: nat,
                 ghost cs: seq<Component>, start: Vertex, visited0: set<Vertex>)
    returns (comp: Component, visited: set<Vertex>)
    requires Closed(adj) && gt.adj == TransposeOf(adj)
    requires FinishOrder(adj, fin) && NoDup(fin) && Elements(fin) == adj.Keys
    requires n < |fin| && Pass2(adj, fin, n + 1, cs) && fin[n] !in Union(cs)
    requires start == fin[n] && visited0 == Union(cs)
    ensures Collecting(adj, start, cs, comp, []) && visited == visited0 + Elements(comp)
  {
    hide Pass2, FinishOrder, NoDup, Collecting, Closed, Union;
    comp, visited := [], visited0;
    var dfs := [start];
    CollectStart(adj, fin, n, cs);
    while dfs != []
      invariant Collecting(adj, start, cs, comp, dfs)
      invariant visited == visited0 + Elements(comp)
      decreases adj.Keys - visited, |dfs|
    {
      hide Pass2, FinishOrder, NoDup, Collecting, Closed, Union;
      var u := Top(dfs);
      var below := Pop(dfs);
      CollectTop(adj, start, cs, comp, dfs);
      if u in visited {
        CollectSkip(adj, start, cs, comp, dfs);
        dfs := below;
        continue;
      }
      ReachesRoot(adj, fin, n, cs, u);
      var dfs' := PushPredecessors(gt, u, visited + {u}, below);
      ghost var kids := dfs'[|below|..];
      TransposeEdges(adj, gt.adj, u, visited + {u}, kids);
      CollectStep(adj, start, cs, comp, dfs, kids);
      assert Elements(comp + [u]) == Elements(comp) + {u};
      visited, comp, dfs := visited + {u}, comp + [u], dfs';
    }
  }

  lemma CollectStart(adj: Adjacency, fin: seq<Vertex>, n: nat, cs: seq<Component>)
    requires n < |fin| && Elements(fin) == adj.Keys
    ensures Collecting(adj, fin[n], cs, [], [fin[n]])
    ensures Elements<Vertex>([]) == {}
  {
    ReachSelf(adj, fin[n]);
    assert fin[n] in Elements(fin);
  }

  lemma CollectTop(adj: Adjacency, root: Vertex, cs: seq<Component>, comp: Component, dfs: seq<Vertex>)
    requires Collecting(adj, root, cs, comp, dfs) && dfs != []
    ensures Top(dfs) in adj && Reach(adj, Top(dfs), root)
    ensures Top(dfs) in Elements(comp) <==> Top(dfs) in comp
  {
  }

  lemma TransposeEdges(adj: Adjacency, t: Adjacency, u: Vertex, visited: set<Vertex>, kids: seq<Vertex>)
    requires Closed(adj) && t == TransposeOf(adj)
    requires forall y :: y in kids ==> Edge(t, u, y)
    requires forall y :: Edge(t, u, y) && y !in visited ==> y in kids
    ensures forall y :: y in kids ==> y in adj && Edge(adj, y, u)
    ensures forall y :: Edge(adj, y, u) ==> y in visited || y in kids
  {
  }

  method PushPredecessors(gt: DirectedGraph, u: Vertex, visited: set<Vertex>, dfs: seq<Vertex>)
    returns (dfs': seq<Vertex>)
    ensures |dfs| <= |dfs'| && dfs' == dfs + dfs'[|dfs|..]
    ensures forall y :: y in dfs'[|dfs|..] ==> Edge(gt.adj, u, y)
    ensures forall y :: Edge(gt.adj, u, y) && y !in visited ==> y in dfs'[|dfs|..]
  {
    var nbrs := gt.NeighborList(u);
    ghost var kids: seq<Vertex> := [];
    dfs' := dfs;
    for i := 0 to |nbrs|
      invariant dfs' == dfs + kids
      invariant forall y :: y in kids ==> y in nbrs[..i]
      invariant forall k :: 0 <= k < i && nbrs[k] !in visited ==> nbrs[k] in kids
    {
      var v := nbrs[i];
      if v !in visited {
        dfs', kids := dfs' + [v], kids + [v];
      }
    }
    assert dfs'[|dfs|..] == kids;
    assert forall y :: y in nbrs <==> y in Elements(nbrs);
  }

  /**
   The components of the graph in Kosaraju's emission order. `pops` counts the stack entries
   popped by the first pass.
   */
  method FindSccs(g: DirectedGraph) returns (sccs: seq<Component>, ghost pops: nat)
    requires g.Valid()
    ensures SccPartition(g.adj, sccs)
    ensures EdgesGoOn(g.adj, sccs)
    ensures pops <= 2 * |g.adj| + g.edgeCount
  {
    hide Edges, FinishOrder, SccPartition, EdgesGoOn, NoDup, Closed, Union, Pass2;
    ghost var adj := g.adj;
    var fin;
    fin, pops := FinishingOrder(g);
    var gt := g.Transpose();
    var visited: set<Vertex> := {};
    sccs := [];
    var n := |fin|;
    Pass2Start(adj, fin);
    while n > 0
      invariant 0 <= n <= |fin| && visited == Union(sccs)
      invariant Pass2(adj, fin, n, sccs) && gt.adj == TransposeOf(adj)
    {
      hide Edges, FinishOrder, SccPartition, EdgesGoOn, NoDup, Closed, Union, Pass2;
      n := n - 1;
      var start := fin[n];
      if start in visited {
        Pass2Skip(adj, fin, n, sccs);
        continue;
      }
      var comp;
      comp, visited := Collect(gt, adj, fin, n, sccs, start, visited);
      EmitComponent(adj, fin, n, sccs, comp);
      UnionSnoc(sccs, comp);
      sccs := sccs + [comp];
    }
    Pass2Done(adj, fin, sccs);
  }

  lemma Pass2Start(adj: Adjacency, fin: seq<Vertex>)
    ensures Pass2(adj, fin, |fin|, []) && Union([]) == {}
  {
  }

  lemma Pass2Skip(adj: Adjacency, fin: seq<Vertex>, n: nat, cs: seq<Component>)
    requires n < |fin| && Pass2(adj, fin, n + 1, cs) && fin[n] in Union(cs)
    ensures Pass2(adj, fin, n, cs)
  {
  }

  lemma Pass2Done(adj: Adjacency, fin: seq<Vertex>, cs: seq<Component>)
    requires Pass2(adj, fin, 0, cs) && Elements(fin) == adj.Keys
    ensures SccPartition(adj, cs) && EdgesGoOn(adj, cs)
  {
    forall v | v in adj
      ensures v in Union(cs)
    {
      assert v in Elements(fin);
    }
  }
}
