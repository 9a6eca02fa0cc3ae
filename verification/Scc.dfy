/** What an SCC detector has to return, independently of how it finds it. */
module Scc {
  import opened Sets
  import opened Graphs
  import opened Paths

  type Component = seq<Vertex>

  ghost predicate Mutual(adj: Adjacency, u: Vertex, v: Vertex) {
    Reach(adj, u, v) && Reach(adj, v, u)
  }

  // A strongly connected component: with any member, exactly the vertices mutually reachable
  // with it.
  ghost predicate IsScc(adj: Adjacency, c: set<Vertex>) {
    && c != {}
    && forall u, v :: u in c ==> (v in c <==> Mutual(adj, u, v))
  }

  ghost function Union(cs: seq<Component>): set<Vertex> {
    set i, v | 0 <= i < |cs| && v in cs[i] :: v
  }

  // Every vertex of the graph is in exactly one component, exactly once, and the components
  // are the strongly connected components.
  ghost predicate SccPartition(adj: Adjacency, cs: seq<Component>) {
    && (forall i :: 0 <= i < |cs| ==> NoDup(cs[i]) && IsScc(adj, Elements(cs[i])))
    && (forall i, j :: 0 <= i < j < |cs| ==> Elements(cs[i]) !! Elements(cs[j]))
    && Union(cs) == adj.Keys
  }

  // Emission order of Tarjan: no edge leads to a component emitted later.
  ghost predicate EdgesGoBack(adj: Adjacency, cs: seq<Component>) {
    forall i, u, v :: 0 <= i < |cs| && u in cs[i] && Edge(adj, u, v) ==> v in Union(cs[..i + 1])
  }

  // Emission order of Kosaraju: no edge comes from a component emitted later.
  ghost predicate EdgesGoOn(adj: Adjacency, cs: seq<Component>) {
    forall i, u, v :: 0 <= i < |cs| && v in cs[i] && Edge(adj, u, v) ==> u in Union(cs[..i + 1])
  }

  lemma MutualVia(adj: Adjacency, u: Vertex, v: Vertex, w: Vertex)
    requires Mutual(adj, u, v) && Mutual(adj, v, w)
    ensures Mutual(adj, u, w)
  {
    ReachTrans(adj, u, v, w);
    ReachTrans(adj, w, v, u);
  }

  // It is enough to compare every vertex with one member.
  lemma SccFromRoot(adj: Adjacency, c: set<Vertex>, root: Vertex)
    requires root in c
    requires forall v: Vertex :: v in c <==> Mutual(adj, root, v)
    ensures IsScc(adj, c)
  {
    forall u, v: Vertex | u in c
      ensures v in c <==> Mutual(adj, u, v)
    {
      if v in c {
        MutualVia(adj, u, root, v);
      }
      if Mutual(adj, u, v) {
        MutualVia(adj, root, u, v);
      }
    }
  }

  lemma SameScc(adj: Adjacency, c: set<Vertex>, d: set<Vertex>, x: Vertex)
    requires IsScc(adj, c) && IsScc(adj, d) && x in c && x in d
    ensures c == d
  {
    assert forall v :: v in c <==> Mutual(adj, x, v);
  }

  lemma UnionSnoc(cs: seq<Component>, c: Component)
    ensures Union(cs + [c]) == Union(cs) + Elements(c)
  {
    forall v | v in Union(cs) + Elements(c)
      ensures v in Union(cs + [c])
    {
      if v in Union(cs) {
        var i :| 0 <= i < |cs| && v in cs[i];
        assert v in (cs + [c])[i];
      } else {
        assert v in (cs + [c])[|cs|];
      }
    }
  }

  ghost function ComponentSets(cs: seq<Component>): set<set<Vertex>> {
    set i | 0 <= i < |cs| :: Elements(cs[i])
  }

  lemma IndexOf(cs: seq<Component>, v: Vertex) returns (i: nat)
    requires v in Union(cs)
    ensures i < |cs| && v in cs[i] && v in Elements(cs[i])
  {
    i :| 0 <= i < |cs| && v in cs[i];
  }

  // Two detectors that both return the partition return the same components.
  lemma SameComponents(adj: Adjacency, a: seq<Component>, b: seq<Component>)
    requires SccPartition(adj, a) && SccPartition(adj, b)
    ensures ComponentSets(a) == ComponentSets(b) && |a| == |b|
  {
    ComponentsIncluded(adj, a, b);
    ComponentsIncluded(adj, b, a);
    CountSets(adj, a);
    CountSets(adj, b);
  }

  lemma ComponentsIncluded(adj: Adjacency, a: seq<Component>, b: seq<Component>)
    requires SccPartition(adj, a) && SccPartition(adj, b)
    ensures ComponentSets(a) <= ComponentSets(b)
  {
    forall c | c in ComponentSets(a)
      ensures c in ComponentSets(b)
    {
      var i :| 0 <= i < |a| && c == Elements(a[i]);
      ComponentIn(adj, a, b, i);
    }
  }

  lemma ComponentIn(adj: Adjacency, a: seq<Component>, b: seq<Component>, i: nat)
    requires SccPartition(adj, a) && SccPartition(adj, b) && i < |a|
    ensures Elements(a[i]) in ComponentSets(b)
  {
    hide Mutual, NoDup;
    var u :| u in Elements(a[i]);
    assert u in Union(a);
    var j := IndexOf(b, u);
    SameScc(adj, Elements(a[i]), Elements(b[j]), u);
  }

  lemma ComponentSetsSnoc(cs: seq<Component>, c: Component)
    ensures ComponentSets(cs + [c]) == ComponentSets(cs) + {Elements(c)}
  {
    var all := cs + [c];
    forall e | e in ComponentSets(cs)
      ensures e in ComponentSets(all)
    {
      var i :| 0 <= i < |cs| && e == Elements(cs[i]);
      assert all[i] == cs[i];
    }
    assert all[|cs|] == c;
  }

  // Disjoint nonempty components are different sets.
  lemma {:induction false} CountSets(adj: Adjacency, cs: seq<Component>)
    requires forall i :: 0 <= i < |cs| ==> IsScc(adj, Elements(cs[i]))
    requires forall i, j :: 0 <= i < j < |cs| ==> Elements(cs[i]) !! Elements(cs[j])
    ensures |ComponentSets(cs)| == |cs|
  {
    if cs == [] {
    } else {
      var n := |cs| - 1;
      CountSets(adj, cs[..n]);
      assert cs == cs[..n] + [cs[n]];
      ComponentSetsSnoc(cs[..n], cs[n]);
      var u :| u in Elements(cs[n]);
      forall i | 0 <= i < n
        ensures u !in Elements(cs[..n][i])
      {
        assert cs[..n][i] == cs[i];
      }
      assert Elements(cs[n]) !in ComponentSets(cs[..n]);
    }
  }

  // The two emission orders are opposite: an edge between different components goes to an
  // earlier component in the one and to a later component in the other.
  lemma OppositeOrders(adj: Adjacency, t: seq<Component>, k: seq<Component>, u: Vertex, v: Vertex)
    returns (tu: nat, tv: nat, ku: nat, kv: nat)
    requires SccPartition(adj, t) && SccPartition(adj, k)
    requires EdgesGoBack(adj, t) && EdgesGoOn(adj, k)
    requires Edge(adj, u, v) && v in adj && !Mutual(adj, u, v)
    ensures tu < |t| && tv < |t| && u in t[tu] && v in t[tv] && tv < tu
    ensures ku < |k| && kv < |k| && u in k[ku] && v in k[kv] && ku < kv
  {
    tu := IndexOf(t, u);
    ku := IndexOf(k, u);
    kv := IndexOf(k, v);
    assert v in Union(t[..tu + 1]);
    tv := IndexOf(t[..tu + 1], v);
    assert u in Union(k[..kv + 1]);
    var ku' := IndexOf(k[..kv + 1], u);
    assert u in Elements(k[ku']);
    assert u in Elements(t[tu]) && v in Elements(t[tv]) && u in Elements(k[ku]) && v in Elements(k[kv]);
    assert IsScc(adj, Elements(t[tu])) && IsScc(adj, Elements(k[kv]));
  }
}
