/** What happens to balls and components when a graph only gains edges. */
module GraphGrowth {
  import opened Sets
  import opened Graphs
  import opened Paths
  import opened Hops
  import opened Scc

  ghost predicate SubGraph(a: Adjacency, b: Adjacency) {
    && a.Keys <= b.Keys
    && forall u, v :: Edge(a, u, v) ==> Edge(b, u, v)
  }

  lemma ReachGrows(a: Adjacency, b: Adjacency, u: Vertex, v: Vertex)
    requires SubGraph(a, b) && Reach(a, u, v)
    ensures Reach(b, u, v)
  {
    var p :| IsPath(a, p, u, v);
    assert IsPath(b, p, u, v);
  }

  /** With more edges, a component stays inside the component of any of its members. */
  lemma ComponentsOnlyGrow(a: Adjacency, b: Adjacency, c: set<Vertex>, d: set<Vertex>, x: Vertex)
    requires SubGraph(a, b) && IsScc(a, c) && IsScc(b, d) && x in c && x in d
    ensures c <= d
  {
    forall v | v in c
      ensures v in d
    {
      assert Mutual(a, x, v);
      ReachGrows(a, b, x, v);
      ReachGrows(a, b, v, x);
    }
  }

  /** With more edges, a ball keeps its vertices and no distance gets longer. */
  lemma BallsOnlyGrow(a: Adjacency, b: Adjacency, s: Vertex, k: int, m: map<Vertex, int>, m': map<Vertex, int>)
    requires SubGraph(a, b) && IsBall(a, s, k, m) && IsBall(b, s, k, m')
    ensures forall v :: v in m ==> v in m' && m'[v] <= m[v]
  {
    forall v | v in m
      ensures v in m' && m'[v] <= m[v]
    {
      WithinGrows(a, b, s, v, k);
      WithinGrows(a, b, s, v, m[v]);
    }
  }

  lemma WithinGrows(a: Adjacency, b: Adjacency, s: Vertex, v: Vertex, n: int)
    requires SubGraph(a, b) && Within(a, s, v, n)
    ensures Within(b, s, v, n)
  {
    var p :| IsPath(a, p, s, v) && |p| <= n + 1;
    assert IsPath(b, p, s, v);
  }

  // ---- The components of a graph, whoever computes them ----

  ghost function SccAt(adj: Adjacency, v: Vertex): set<Vertex> {
    set u | u in adj && Mutual(adj, v, u)
  }

  ghost function SccsOf(adj: Adjacency): set<set<Vertex>> {
    set v | v in adj :: SccAt(adj, v)
  }

  // Components with more than one vertex.
  ghost function CyclesOf(adj: Adjacency): set<set<Vertex>> {
    set c | c in SccsOf(adj) && |c| > 1
  }

  lemma ComponentAt(adj: Adjacency, c: set<Vertex>, v: Vertex)
    requires IsScc(adj, c) && c <= adj.Keys && v in c
    ensures c == SccAt(adj, v)
  {
  }

  /** A detector's components are the components of the graph. */
  lemma PartitionIsSccs(adj: Adjacency, cs: seq<Component>)
    requires SccPartition(adj, cs)
    ensures ComponentSets(cs) == SccsOf(adj)
  {
    forall c | c in ComponentSets(cs)
      ensures c in SccsOf(adj)
    {
      var i :| 0 <= i < |cs| && c == Elements(cs[i]);
      var v :| v in c;
      AllInUnion(cs, i);
      ComponentAt(adj, c, v);
    }
    forall c | c in SccsOf(adj)
      ensures c in ComponentSets(cs)
    {
      var v :| v in adj && c == SccAt(adj, v);
      var i := IndexOf(cs, v);
      AllInUnion(cs, i);
      ComponentAt(adj, Elements(cs[i]), v);
    }
  }

  lemma AllInUnion(cs: seq<Component>, i: nat)
    requires i < |cs|
    ensures Elements(cs[i]) <= Union(cs)
  {
  }

  // The components with more than one vertex, in order.
  function Cycles(cs: seq<Component>): seq<Component> {
    if cs == [] then []
    else
      var c := cs[|cs| - 1];
      Cycles(cs[..|cs| - 1]) + if |c| > 1 then [c] else []
  }

  /** How many components have more than one vertex does not depend on the detector. */
  lemma CyclesOfPartition(adj: Adjacency, cs: seq<Component>)
    requires SccPartition(adj, cs)
    ensures ComponentSets(Cycles(cs)) == CyclesOf(adj) && |Cycles(cs)| == |CyclesOf(adj)|
  {
    PartitionIsSccs(adj, cs);
    CountCycles(adj, cs);
  }

  ghost predicate Separate(adj: Adjacency, cs: seq<Component>) {
    && (forall i :: 0 <= i < |cs| ==> NoDup(cs[i]) && IsScc(adj, Elements(cs[i])))
    && (forall i, j :: 0 <= i < j < |cs| ==> Elements(cs[i]) !! Elements(cs[j]))
  }

  ghost function Large(s: set<set<Vertex>>): set<set<Vertex>> {
    set c | c in s && |c| > 1
  }

  lemma {:induction false} CountCycles(adj: Adjacency, cs: seq<Component>)
    requires Separate(adj, cs)
    ensures ComponentSets(Cycles(cs)) == Large(ComponentSets(cs))
    ensures |Cycles(cs)| == |Large(ComponentSets(cs))|
  {
    hide IsScc, NoDup, ComponentSets, Elements;
    if cs == [] {
      NoComponents();
    } else {
      var n := |cs| - 1;
      var front, c := cs[..n], cs[n];
      assert cs == front + [c];
      CountCycles(adj, front);
      ComponentSetsSnoc(front, c);
      ComponentSetsSnoc(Cycles(front), c);
      ElementsSize(c);
      NewComponent(adj, cs);
      LargeWith(ComponentSets(front), Elements(c));
      assert Cycles(cs) == if |c| > 1 then Cycles(front) + [c] else Cycles(front);
    }
  }

  lemma NoComponents()
    ensures ComponentSets([]) == {}
  {
  }

  lemma LargeWith(s: set<set<Vertex>>, c: set<Vertex>)
    ensures Large(s + {c}) == Large(s) + if |c| > 1 then {c} else {}
  {
  }

  lemma NewComponent(adj: Adjacency, cs: seq<Component>)
    requires Separate(adj, cs) && cs != []
    ensures Elements(cs[|cs| - 1]) !in ComponentSets(cs[..|cs| - 1])
  {
    var n := |cs| - 1;
    var u :| u in Elements(cs[n]);
    forall i | 0 <= i < n
      ensures u !in Elements(cs[..n][i])
    {
      assert cs[..n][i] == cs[i];
    }
  }

  lemma {:induction false} ElementsSize(c: Component)
    requires NoDup(c)
    ensures |Elements(c)| == |c|
  {
    if c == [] {
      assert Elements(c) == {};
    } else {
      var n := |c| - 1;
      ElementsSize(c[..n]);
      assert c == c[..n] + [c[n]];
      assert Elements(c) == Elements(c[..n]) + {c[n]};
    }
  }
}
