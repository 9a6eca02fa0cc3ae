/** `BFSReachability::reachable_within`: a queue that stops expanding at depth `max_hops`. */
module Bfs {
  import opened Sets
  import opened Graphs
  import opened Hops

  function Depth(k: int): int {
    if k < 0 then 0 else k
  }

  // Distances found so far are those of real paths; the queue is in order of distance and
  // spans at most two levels, and what has left it is fully expanded.
  ghost predicate Inv(adj: Adjacency, s: Vertex, k: int, m: map<Vertex, int>, q: seq<Vertex>) {
    && s in m && m[s] == 0 && m.Keys <= adj.Keys + {s}
    && (forall v :: v in m ==> 0 <= m[v] <= Depth(k) && Within(adj, s, v, m[v]))
    && NoDup(q) && (forall i :: 0 <= i < |q| ==> q[i] in m)
    && (forall i, j :: 0 <= i < j < |q| ==> m[q[i]] <= m[q[j]])
    && (forall v :: v in m && q != [] ==> m[v] <= m[q[0]] + 1)
    && (forall u, v :: u in m && u !in q && m[u] < k && Edge(adj, u, v) ==> v in m && m[v] <= m[u] + 1)
  }

  // `m'` gives distance `d` to the vertices `found`, which `q'` appends to `q`.
  ghost predicate Enqueued(m: map<Vertex, int>, q: seq<Vertex>, d: int, found: seq<Vertex>,
                           m': map<Vertex, int>, q': seq<Vertex>) {
    && q' == q + found && NoDup(found) && (forall v :: v in found ==> v !in m)
    && m'.Keys == m.Keys + Elements(found)
    && (forall v :: v in m ==> m'[v] == m[v]) && (forall v :: v in found && v in m' ==> m'[v] == d)
  }

  lemma ExpandKeepsInv(adj: Adjacency, s: Vertex, k: int, m: map<Vertex, int>, q: seq<Vertex>,
                       found: seq<Vertex>, m': map<Vertex, int>, q': seq<Vertex>)
    requires Closed(adj) && q != [] && Inv(adj, s, k, m, q) && m[q[0]] < k
    requires Enqueued(m, q[1..], m[q[0]] + 1, found, m', q')
    requires forall v :: v in found <==> Edge(adj, q[0], v) && v !in m
    ensures Inv(adj, s, k, m', q')
  {
    var u := q[0];
    assert q == [u] + q[1..];
    forall v | v in m'
      ensures 0 <= m'[v] <= Depth(k) && Within(adj, s, v, m'[v])
      ensures m'[v] <= m[u] + 1
    {
      if v !in m {
        assert v in found;
        WithinStep(adj, s, u, v, m[u]);
      }
    }
    QueueOrder(m, q, found, m', q');
    forall x, v | x in m' && x !in q' && m'[x] < k && Edge(adj, x, v)
      ensures v in m' && m'[v] <= m'[x] + 1
    {
      assert x in m;
      if x == u {
        assert v in m || v in found;
      } else {
        assert x !in q;
      }
    }
  }

  lemma QueueOrder(m: map<Vertex, int>, q: seq<Vertex>, found: seq<Vertex>, m': map<Vertex, int>, q': seq<Vertex>)
    requires q != [] && NoDup(q) && (forall i :: 0 <= i < |q| ==> q[i] in m)
    requires forall i, j :: 0 <= i < j < |q| ==> m[q[i]] <= m[q[j]]
    requires forall v :: v in m ==> m[v] <= m[q[0]] + 1
    requires Enqueued(m, q[1..], m[q[0]] + 1, found, m', q')
    ensures NoDup(q') && (forall i :: 0 <= i < |q'| ==> q'[i] in m' && m[q[0]] <= m'[q'[i]])
    ensures forall i, j :: 0 <= i < j < |q'| ==> m'[q'[i]] <= m'[q'[j]]
  {
    var n := |q| - 1;
    forall i | 0 <= i < |q'|
      ensures q'[i] == if i < n then q[i + 1] else found[i - n]
      ensures q'[i] in m' && m'[q'[i]] == if i < n then m[q[i + 1]] else m[q[0]] + 1
      ensures m[q[0]] <= m'[q'[i]]
    {
      if n <= i {
        assert found[i - n] in found;
        assert found[i - n] in Elements(found);
      }
    }
    forall i, j | 0 <= i < j < |q'|
      ensures q'[i] != q'[j]
    {
      if i < n <= j {
        assert found[j - n] in found;
      }
    }
  }

  lemma SkipKeepsInv(adj: Adjacency, s: Vertex, k: int, m: map<Vertex, int>, q: seq<Vertex>)
    requires q != [] && Inv(adj, s, k, m, q) && k <= m[q[0]]
    ensures Inv(adj, s, k, m, q[1..])
  {
    assert q == [q[0]] + q[1..];
  }

  lemma EnqueueOne(m: map<Vertex, int>, q: seq<Vertex>, d: int, found: seq<Vertex>,
                   m': map<Vertex, int>, q': seq<Vertex>, v: Vertex)
    requires Enqueued(m, q, d, found, m', q') && v !in m'
    ensures Enqueued(m, q, d, found + [v], m'[v := d], q' + [v]) && q' == q + found
  {
    assert Elements(found + [v]) == Elements(found) + {v};
    assert forall x :: x in found <==> x in Elements(found);
  }

  lemma EnqueueNone(m: map<Vertex, int>, q: seq<Vertex>, d: int)
    ensures Enqueued(m, q, d, [], m, q)
  {
  }

  // Gives the unseen neighbours of `u` the distance `d` and queues them.
  method Expand(g: DirectedGraph, u: Vertex, d: int, m: map<Vertex, int>, q: seq<Vertex>)
    returns (m': map<Vertex, int>, q': seq<Vertex>)
    ensures |q| <= |q'| && Enqueued(m, q, d, q'[|q|..], m', q')
    ensures forall v :: v in q'[|q|..] <==> Edge(g.adj, u, v) && v !in m
  {
    hide Enqueued, NoDup;
    var nbrs := g.NeighborList(u);
    ghost var found: seq<Vertex> := [];
    m', q' := m, q;
    EnqueueNone(m, q, d);
    for i := 0 to |nbrs|
      invariant Enqueued(m, q, d, found, m', q') && m'.Keys == m.Keys + Elements(found) && q' == q + found
      invariant forall v :: v in found <==> v in nbrs[..i] && v !in m
    {
      hide Enqueued, NoDup;
      var v := nbrs[i];
      if v !in m' {
        EnqueueOne(m, q, d, found, m', q', v);
        m', q', found := m'[v := d], q' + [v], found + [v];
      }
    }
    assert q'[|q|..] == found;
    assert forall v :: v in nbrs[..|nbrs|] <==> v in Elements(nbrs);
  }

  method ReachableWithin(g: DirectedGraph, source: Vertex, maxHops: int) returns (result: map<Vertex, int>)
    requires g.Valid()
    ensures IsBall(g.adj, source, Depth(maxHops), result)
  {
    hide Inv, Enqueued, Edges, Unexpanded;
    result := map[source := 0];
    var q := [source];
    StartInv(g.adj, source, maxHops);
    while q != []
      invariant Inv(g.adj, source, maxHops, result, q)
      decreases Unexpanded(g.adj, source, result, q)
    {
      hide Inv, Enqueued, Edges, Unexpanded;
      var u := q[0];
      ghost var q0, m0 := q, result;
      FrontIsKnown(g.adj, source, maxHops, result, q);
      q := q[1..];
      var d := result[u];
      if d >= maxHops {
        SkipKeepsInv(g.adj, source, maxHops, result, q0);
        EnqueueNone(result, q, 0);
        assert q + [] == q;
        Progress(g.adj, source, result, q0, 0, [], result, q);
        continue;
      }
      ghost var rest := q;
      result, q := Expand(g, u, d + 1, result, q);
      ghost var found := q[|rest|..];
      ExpandKeepsInv(g.adj, source, maxHops, m0, q0, found, result, q);
      Progress(g.adj, source, m0, q0, d + 1, found, result, q);
    }
    AllExpanded(g.adj, source, maxHops, result);
  }

  lemma StartInv(adj: Adjacency, s: Vertex, k: int)
    ensures Inv(adj, s, k, map[s := 0], [s])
  {
    WithinSelf(adj, s, 0);
  }

  lemma FrontIsKnown(adj: Adjacency, s: Vertex, k: int, m: map<Vertex, int>, q: seq<Vertex>)
    requires q != [] && Inv(adj, s, k, m, q)
    ensures q[0] in m && q[0] !in q[1..] && m.Keys <= adj.Keys + {s}
    ensures Elements(q) == Elements(q[1..]) + {q[0]}
  {
    assert q == [q[0]] + q[1..];
  }

  ghost function Unexpanded(adj: Adjacency, s: Vertex, m: map<Vertex, int>, q: seq<Vertex>): set<Vertex> {
    adj.Keys + {s} - (m.Keys - Elements(q))
  }

  lemma Progress(adj: Adjacency, s: Vertex, m: map<Vertex, int>, q: seq<Vertex>, d: int, found: seq<Vertex>,
                 m': map<Vertex, int>, q': seq<Vertex>)
    requires q != [] && q[0] in m && q[0] !in q[1..] && m.Keys <= adj.Keys + {s}
    requires Enqueued(m, q[1..], d, found, m', q')
    ensures Unexpanded(adj, s, m', q') < Unexpanded(adj, s, m, q)
  {
    assert q == [q[0]] + q[1..];
    assert q[0] in Unexpanded(adj, s, m, q) && q[0] !in Unexpanded(adj, s, m', q');
  }

  lemma AllExpanded(adj: Adjacency, s: Vertex, k: int, m: map<Vertex, int>)
    requires Inv(adj, s, k, m, [])
    ensures IsBall(adj, s, Depth(k), m)
  {
    RelaxedIsBall(adj, s, Depth(k), m);
  }
}
