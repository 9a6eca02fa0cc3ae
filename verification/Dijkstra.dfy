/**
 `DijkstraReachability::reachable_within`: a min-heap of (distance, vertex) entries. Entries are
 never removed early; a popped entry whose vertex is already settled is skipped.
 */
module Dijkstra {
  import opened Sets
  import opened Graphs
  import opened Hops

  datatype Entry = Entry(d: int, v: Vertex)

  // The order of the heap: by distance, then by vertex.
  predicate AtMost(a: Entry, b: Entry) {
    a.d < b.d || (a.d == b.d && a.v <= b.v)
  }

  // `std::priority_queue::top` and `pop`: the least entry, and the others.
  method PopMin(pq: seq<Entry>) returns (e: Entry, rest: seq<Entry>)
    requires pq != []
    ensures e in pq && (forall x :: x in pq ==> AtMost(e, x))
    ensures multiset(pq) == multiset(rest) + multiset{e} && |rest| == |pq| - 1
    ensures forall x :: x in pq <==> x == e || x in rest
  {
    var k := 0;
    for i := 1 to |pq|
      invariant 0 <= k < |pq| && forall j :: 0 <= j < i ==> AtMost(pq[k], pq[j])
    {
      if !AtMost(pq[k], pq[i]) {
        k := i;
      }
    }
    e, rest := pq[k], pq[..k] + pq[k + 1..];
    assert pq == pq[..k] + [pq[k]] + pq[k + 1..];
  }

  // Settled distances are those of real paths and no larger than any pending one; what a
  // settled vertex leads to is settled or pending at one hop more.
  ghost predicate Inv(adj: Adjacency, s: Vertex, k: int, m: map<Vertex, int>, pq: seq<Entry>) {
    && m.Keys <= adj.Keys + {s}
    && (forall v :: v in m ==> 0 <= m[v] <= k && Within(adj, s, v, m[v]))
    && (forall e :: e in pq ==> 0 <= e.d && Within(adj, s, e.v, e.d) && e.v in adj.Keys + {s})
    && (forall e :: e in pq && 0 <= k ==> e.d <= k)
    && (forall v, e :: v in m && e in pq ==> m[v] <= e.d)
    && (if s in m then m[s] == 0 else Entry(0, s) in pq)
    && (forall u, v {:trigger Edge(adj, u, v)} :: u in m && m[u] < k && Edge(adj, u, v) ==>
          if v in m then m[v] <= m[u] + 1 else Entry(m[u] + 1, v) in pq)
  }

  lemma SkipKeepsInv(adj: Adjacency, s: Vertex, k: int, m: map<Vertex, int>, pq: seq<Entry>, e: Entry, rest: seq<Entry>)
    requires Inv(adj, s, k, m, pq) && e.v in m
    requires forall x :: x in pq <==> x == e || x in rest
    ensures Inv(adj, s, k, m, rest)
  {
  }

  // Settling the vertex of the least entry, and pushing entries for its unsettled neighbours.
  lemma SettleKeepsInv(adj: Adjacency, s: Vertex, k: int, m: map<Vertex, int>, pq: seq<Entry>, e: Entry,
                       rest: seq<Entry>, pushed: seq<Entry>)
    requires Closed(adj) && Inv(adj, s, k, m, pq) && e.v !in m && e.d <= k
    requires forall x :: x in pq ==> AtMost(e, x)
    requires forall x :: x in pq <==> x == e || x in rest
    requires forall x :: x in pushed <==> Edge(adj, e.v, x.v) && x.v !in m && x.v != e.v && x.d == e.d + 1 <= k
    ensures Inv(adj, s, k, m[e.v := e.d], rest + pushed)
  {
    var m', pq' := m[e.v := e.d], rest + pushed;
    forall x | x in pq'
      ensures 0 <= x.d && Within(adj, s, x.v, x.d) && x.v in adj.Keys + {s}
      ensures e.d <= x.d <= k
    {
      if x in pushed {
        WithinStep(adj, s, e.v, x.v, e.d);
      } else {
        assert x in pq;
      }
    }
    SettleRelaxes(adj, s, k, m, pq, e, rest, pushed);
  }

  lemma SettleRelaxes(adj: Adjacency, s: Vertex, k: int, m: map<Vertex, int>, pq: seq<Entry>, e: Entry,
                      rest: seq<Entry>, pushed: seq<Entry>)
    requires Inv(adj, s, k, m, pq) && e.v !in m && e.d <= k
    requires forall x :: x in pq ==> AtMost(e, x)
    requires forall x :: x in pq <==> x == e || x in rest
    requires forall x :: x in pushed <==> Edge(adj, e.v, x.v) && x.v !in m && x.v != e.v && x.d == e.d + 1 <= k
    ensures forall u, v {:trigger Edge(adj, u, v)} ::
        u in m[e.v := e.d] && m[e.v := e.d][u] < k && Edge(adj, u, v) ==>
          if v in m[e.v := e.d] then m[e.v := e.d][v] <= m[e.v := e.d][u] + 1
          else Entry(m[e.v := e.d][u] + 1, v) in rest + pushed
    ensures if s in m[e.v := e.d] then m[e.v := e.d][s] == 0 else Entry(0, s) in rest + pushed
  {
    var m' := m[e.v := e.d];
    forall u, v | u in m' && m'[u] < k && Edge(adj, u, v)
      ensures if v in m' then m'[v] <= m'[u] + 1 else Entry(m'[u] + 1, v) in rest + pushed
    {
      if u == e.v {
        if v !in m' {
          assert Entry(e.d + 1, v) in pushed;
        } else if v != e.v {
          assert e in pq;
        }
      } else if v !in m {
        assert Entry(m[u] + 1, v) in pq;
        assert AtMost(e, Entry(m[u] + 1, v));
      }
    }
    if s == e.v {
      assert AtMost(e, Entry(0, s));
    }
  }

  method PushUnsettled(g: DirectedGraph, u: Vertex, d: int, k: int, m: map<Vertex, int>, pq: seq<Entry>)
    returns (pq': seq<Entry>)
    ensures |pq| <= |pq'| && pq' == pq + pq'[|pq|..]
    ensures forall x :: x in pq'[|pq|..] <==> Edge(g.adj, u, x.v) && x.v !in m && x.d == d + 1 <= k
  {
    var nbrs := g.NeighborList(u);
    ghost var pushed: seq<Entry> := [];
    pq' := pq;
    for i := 0 to |nbrs|
      invariant pq' == pq + pushed
      invariant forall x :: x in pushed <==> x.v in nbrs[..i] && x.v !in m && x.d == d + 1 <= k
    {
      var v := nbrs[i];
      var dv := d + 1;
      if v !in m && dv <= k {
        pq', pushed := pq' + [Entry(dv, v)], pushed + [Entry(dv, v)];
      }
    }
    assert pq'[|pq|..] == pushed;
    assert forall v :: v in nbrs[..|nbrs|] <==> v in Elements(nbrs);
  }

  method ReachableWithin(g: DirectedGraph, source: Vertex, maxHops: int) returns (result: map<Vertex, int>)
    requires g.Valid()
    ensures IsBall(g.adj, source, maxHops, result)
  {
    hide Edges;
    result := map[];
    var pq := [Entry(0, source)];
    WithinSelf(g.adj, source, 0);
    while pq != []
      invariant Inv(g.adj, source, maxHops, result, pq)
      decreases g.adj.Keys + {source} - result.Keys, |pq|
    {
      hide Edges, Closed;
      ghost var pq0 := pq;
      var e;
      e, pq := PopMin(pq);
      if e.d > maxHops {
        NothingInRange(g.adj, source, maxHops, result, pq0, e);
        return;
      }
      if e.v in result {
        SkipKeepsInv(g.adj, source, maxHops, result, pq0, e, pq);
        continue;
      }
      ghost var m0, rest := result, pq;
      result := result[e.v := e.d];
      pq := PushUnsettled(g, e.v, e.d, maxHops, result, pq);
      ghost var pushed := pq[|rest|..];
      SettleKeepsInv(g.adj, source, maxHops, m0, pq0, e, rest, pushed);
      assert e.v in g.adj.Keys + {source} - m0.Keys;
    }
    AllSettled(g.adj, source, maxHops, result);
  }

  // The early exit is taken for negative limits only, before anything is settled.
  lemma NothingInRange(adj: Adjacency, s: Vertex, k: int, m: map<Vertex, int>, pq: seq<Entry>, e: Entry)
    requires Inv(adj, s, k, m, pq) && e in pq && e.d > k
    ensures k < 0 && m == map[] && IsBall(adj, s, k, m)
  {
    forall v
      ensures !Within(adj, s, v, k)
    {
    }
    assert forall v :: v !in m;
  }

  lemma AllSettled(adj: Adjacency, s: Vertex, k: int, m: map<Vertex, int>)
    requires Inv(adj, s, k, m, [])
    ensures IsBall(adj, s, k, m)
  {
    RelaxedIsBall(adj, s, k, m);
  }
}
