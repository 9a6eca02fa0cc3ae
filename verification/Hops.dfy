/** K-hop reachability: what `reachable_within` has to return. */
module Hops {
  import opened Graphs
  import opened Paths

  // A path with at most `n` edges.
  ghost predicate Within(adj: Adjacency, s: Vertex, v: Vertex, n: int) {
    exists p :: IsPath(adj, p, s, v) && |p| <= n + 1
  }

  // `m` maps exactly the vertices within `k` hops of `s`, each to its shortest distance.
  ghost predicate IsBall(adj: Adjacency, s: Vertex, k: int, m: map<Vertex, int>) {
    && (forall v :: v in m <==> Within(adj, s, v, k))
    && (forall v :: v in m ==> Within(adj, s, v, m[v]))
    && (forall v, n :: v in m && Within(adj, s, v, n) ==> m[v] <= n)
  }

  lemma WithinStep(adj: Adjacency, s: Vertex, u: Vertex, v: Vertex, n: int)
    requires Within(adj, s, u, n) && Edge(adj, u, v)
    ensures Within(adj, s, v, n + 1)
  {
    var p :| IsPath(adj, p, s, u) && |p| <= n + 1;
    assert IsPath(adj, p + [v], s, v);
  }

  lemma WithinSelf(adj: Adjacency, s: Vertex, n: nat)
    ensures Within(adj, s, s, n)
  {
    assert IsPath(adj, [s], s, s);
  }

  // Distances that start at 0 and never jump by more than one across an edge.
  ghost predicate Relaxed(adj: Adjacency, s: Vertex, k: int, m: map<Vertex, int>) {
    && s in m && m[s] == 0
    && forall u, v :: u in m && m[u] < k && Edge(adj, u, v) ==> v in m && m[v] <= m[u] + 1
  }

  // Such distances cover every path of at most `k` edges.
  lemma RelaxedCovers(adj: Adjacency, s: Vertex, k: int, m: map<Vertex, int>, v: Vertex, n: int)
    requires Relaxed(adj, s, k, m) && Within(adj, s, v, n) && n <= k
    ensures v in m && m[v] <= n
  {
    var p :| IsPath(adj, p, s, v) && |p| <= n + 1;
    for i := 1 to |p|
      invariant p[i - 1] in m && m[p[i - 1]] <= i - 1
    {
    }
  }

  lemma RelaxedIsBall(adj: Adjacency, s: Vertex, k: int, m: map<Vertex, int>)
    requires Relaxed(adj, s, k, m)
    requires forall v :: v in m ==> m[v] <= k && Within(adj, s, v, m[v])
    ensures IsBall(adj, s, k, m)
  {
    forall v, n | Within(adj, s, v, n) && n <= k
      ensures v in m && m[v] <= n
    {
      RelaxedCovers(adj, s, k, m, v, n);
    }
    forall v | v in m
      ensures Within(adj, s, v, k)
    {
      WithinMonotone(adj, s, v, m[v], k);
    }
  }

  lemma WithinMonotone(adj: Adjacency, s: Vertex, v: Vertex, n: int, k: int)
    requires Within(adj, s, v, n) && n <= k
    ensures Within(adj, s, v, k)
  {
    var p :| IsPath(adj, p, s, v) && |p| <= n + 1;
  }

  // There is only one ball.
  lemma BallIsUnique(adj: Adjacency, s: Vertex, k: int, m: map<Vertex, int>, m': map<Vertex, int>)
    requires IsBall(adj, s, k, m) && IsBall(adj, s, k, m')
    ensures m == m'
  {
    forall v | v in m
      ensures v in m' && m[v] == m'[v]
    {
      assert Within(adj, s, v, m[v]) && Within(adj, s, v, m'[v]);
    }
  }

  // Raising the number of hops only adds vertices.
  lemma BallGrows(adj: Adjacency, s: Vertex, k: int, k': int, m: map<Vertex, int>, m': map<Vertex, int>)
    requires k <= k' && IsBall(adj, s, k, m) && IsBall(adj, s, k', m')
    ensures forall v :: v in m ==> v in m' && m'[v] == m[v]
    ensures forall v :: v in m' && v !in m ==> m'[v] > k
  {
    forall v | v in m
      ensures v in m' && m'[v] == m[v]
    {
      WithinMonotone(adj, s, v, k, k');
      assert Within(adj, s, v, m[v]) && Within(adj, s, v, m'[v]);
    }
    forall v | v in m' && m'[v] <= k
      ensures v in m
    {
      WithinMonotone(adj, s, v, m'[v], k);
    }
  }

  // The two analyzers agree exactly on the hop limits that are not negative: below zero the
  // breadth-first one still reports its source and the other one reports nothing.
  lemma AnalyzersAgree(adj: Adjacency, s: Vertex, k: int, bfs: map<Vertex, int>, dijkstra: map<Vertex, int>)
    requires IsBall(adj, s, if k < 0 then 0 else k, bfs) && IsBall(adj, s, k, dijkstra)
    ensures bfs == dijkstra <==> k >= 0
  {
    if k >= 0 {
      BallIsUnique(adj, s, k, bfs, dijkstra);
    } else {
      WithinSelf(adj, s, 0);
      assert s in bfs;
      assert !Within(adj, s, s, k);
    }
  }
}
