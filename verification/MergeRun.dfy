/** A run in which a new component goes unreported because two others have merged. */
module MergeRun {
  import opened Words
  import opened Sets
  import opened Graphs
  import opened Paths
  import opened Scc
  import opened GraphGrowth
  import opened LpmTrie
  import opened Pipeline
  import opened PipelineTheorems
  import R = RoundTrip
  import I = Ipv4

  function Link(u: uint32, v: uint32): Event {
    Event(u, v, 1)
  }

  // Two cycles, and enough more events for a detection.
  function FirstTen(): seq<Event> {
    [ Link(1, 2), Link(2, 1), Link(3, 4), Link(4, 3), Link(1, 2), Link(1, 2), Link(1, 2), Link(1, 2), Link(1, 2),
      Link(1, 2)]
  }

  // They merge, and a third cycle forms.
  function NextTen(): seq<Event> {
    [ Link(2, 3), Link(3, 2), Link(5, 6), Link(6, 5), Link(1, 2), Link(1, 2), Link(1, 2), Link(1, 2), Link(1, 2),
      Link(1, 2)]
  }

  function Merging(): seq<Event> {
    FirstTen() + NextTen()
  }

  // A set of vertices that reach each other and that no edge leaves.
  ghost predicate Block(adj: Adjacency, s: set<Vertex>) {
    && s <= adj.Keys && (forall u, v :: u in s && v in s ==> Mutual(adj, u, v))
    && (forall u, v :: u in s && Edge(adj, u, v) ==> v in s)
  }

  lemma BlockIsScc(adj: Adjacency, s: set<Vertex>, v: Vertex)
    requires Block(adj, s) && v in s
    ensures SccAt(adj, v) == s
  {
    forall u | u in adj && Mutual(adj, v, u)
      ensures u in s
    {
      StaysInside(adj, s, v, u);
    }
  }

  // A graph that consists of two blocks with more than one vertex has these as its cycles.
  lemma TwoBlocks(adj: Adjacency, s: set<Vertex>, t: set<Vertex>)
    requires Block(adj, s) && Block(adj, t) && s !! t && s + t == adj.Keys && |s| > 1 && |t| > 1
    ensures CyclesOf(adj) == {s, t} && |CyclesOf(adj)| == 2
  {
    forall c
      ensures c in SccsOf(adj) <==> c == s || c == t
    {
      if c in SccsOf(adj) {
        var v :| v in adj && c == SccAt(adj, v);
        BlockIsScc(adj, if v in s then s else t, v);
      }
      if c == s || c == t {
        var v :| v in c;
        BlockIsScc(adj, c, v);
        assert c == SccAt(adj, v);
      }
    }
    assert s != t by {
      var v :| v in s;
    }
  }

  lemma BackAndForth(adj: Adjacency, u: Vertex, v: Vertex)
    requires Edge(adj, u, v) && Edge(adj, v, u)
    ensures Mutual(adj, u, v) && Mutual(adj, v, u) && Mutual(adj, u, u) && Mutual(adj, v, v)
  {
    ReachEdge(adj, u, v);
    ReachEdge(adj, v, u);
    ReachSelf(adj, u);
    ReachSelf(adj, v);
  }

  lemma FirstGraph(adj: Adjacency)
    requires adj.Keys == {1, 2, 3, 4} && Edges(adj) == {(1, 2), (2, 1), (3, 4), (4, 3)}
    ensures CyclesOf(adj) == {{1, 2}, {3, 4}} && |CyclesOf(adj)| == 2
  {
    hide Mutual, CyclesOf;
    assert forall u: Vertex, v: Vertex :: Edge(adj, u, v) <==> (u, v) in Edges(adj);
    BackAndForth(adj, 1, 2);
    BackAndForth(adj, 3, 4);
    var s: set<Vertex>, t: set<Vertex> := {1, 2}, {3, 4};
    assert Block(adj, s) && Block(adj, t);
    assert |s| == 2 && |t| == 2;
    TwoBlocks(adj, s, t);
  }

  lemma SecondGraph(adj: Adjacency)
    requires adj.Keys == {1, 2, 3, 4, 5, 6}
    requires Edges(adj) == {(1, 2), (2, 1), (3, 4), (4, 3), (2, 3), (3, 2), (5, 6), (6, 5)}
    ensures CyclesOf(adj) == {{1, 2, 3, 4}, {5, 6}} && |CyclesOf(adj)| == 2
  {
    hide Mutual, CyclesOf;
    assert forall u: Vertex, v: Vertex :: Edge(adj, u, v) <==> (u, v) in Edges(adj);
    BackAndForth(adj, 1, 2);
    BackAndForth(adj, 2, 3);
    BackAndForth(adj, 3, 4);
    BackAndForth(adj, 5, 6);
    var s: set<Vertex>, t: set<Vertex> := {1, 2, 3, 4}, {5, 6};
    forall u: Vertex | u in s
      ensures Mutual(adj, 2, u) && Mutual(adj, u, 2)
    {
      if u == 4 {
        MutualVia(adj, 2, 3, 4);
        MutualVia(adj, 4, 3, 2);
      }
    }
    forall u: Vertex, v: Vertex | u in s && v in s
      ensures Mutual(adj, u, v)
    {
      MutualVia(adj, u, 2, v);
    }
    assert Block(adj, s) && Block(adj, t);
    assert {1, 2} <= s && |t| == 2;
    SubsetSize({1, 2}, s);
    TwoBlocks(adj, s, t);
  }

  // The pairs and end points of a list whose events are those of another.
  lemma SamePairs(a: seq<Event>, b: seq<Event>)
    requires forall e :: e in a <==> e in b
    ensures Pairs(a) == Pairs(b) && EndPoints(a) == EndPoints(b)
  {
  }

  lemma PairsJoin(a: seq<Event>, b: seq<Event>)
    ensures Pairs(a + b) == Pairs(a) + Pairs(b) && EndPoints(a + b) == EndPoints(a) + EndPoints(b)
  {
    assert forall e :: e in a + b <==> e in a || e in b;
  }

  lemma PairsOfLink(u: uint32, v: uint32)
    ensures Pairs([Link(u, v)]) == {(u, v)} && EndPoints([Link(u, v)]) == {u, v}
  {
    assert [] + [Link(u, v)] == [Link(u, v)];
    assert Pairs([]) == {} && EndPoints([]) == {};
    PairsSnoc([], Link(u, v));
  }

  // Two events in each direction between two pairs of vertices.
  lemma PairsOfFour(a: uint32, b: uint32, c: uint32, d: uint32)
    ensures var four := [Link(a, b), Link(b, a), Link(c, d), Link(d, c)];
      Pairs(four) == {(a, b), (b, a), (c, d), (d, c)} && EndPoints(four) == {a, b, c, d}
  {
    hide Pairs, EndPoints;
    PairsOfLink(a, b);
    PairsSnoc([Link(a, b)], Link(b, a));
    PairsSnoc([Link(a, b)] + [Link(b, a)], Link(c, d));
    PairsSnoc([Link(a, b)] + [Link(b, a)] + [Link(c, d)], Link(d, c));
    assert [Link(a, b)] + [Link(b, a)] + [Link(c, d)] + [Link(d, c)] ==
      [Link(a, b), Link(b, a), Link(c, d), Link(d, c)];
  }

  lemma FirstPairs()
    ensures Pairs(FirstTen()) == {(1, 2), (2, 1), (3, 4), (4, 3)} && EndPoints(FirstTen()) == {1, 2, 3, 4}
  {
    hide Pairs, EndPoints;
    PairsOfFour(1, 2, 3, 4);
    var four := [Link(1, 2), Link(2, 1), Link(3, 4), Link(4, 3)];
    assert FirstTen()[..4] == four;
    SamePairs(FirstTen(), four);
  }

  lemma NextPairs()
    ensures Pairs(NextTen()) == {(2, 3), (3, 2), (5, 6), (6, 5), (1, 2)} && EndPoints(NextTen()) == {1, 2, 3, 5, 6}
  {
    hide Pairs, EndPoints;
    PairsOfFour(2, 3, 5, 6);
    var four := [Link(2, 3), Link(3, 2), Link(5, 6), Link(6, 5)];
    PairsSnoc(four, Link(1, 2));
    assert NextTen()[..5] == four + [Link(1, 2)];
    SamePairs(NextTen(), four + [Link(1, 2)]);
  }

  lemma NotThere(adj: Adjacency)
    requires 5 !in adj
    ensures {5, 6} !in CyclesOf(adj)
  {
    forall v | v in adj
      ensures 5 !in SccAt(adj, v)
    {
    }
    var c: set<Vertex> := {5, 6};
    assert 5 in c;
  }

  lemma Periods(cfg: Config, k: nat)
    requires cfg.sccInterval == 1
    ensures DetectsAt(cfg, k) <==> k % 10 == 0
  {
  }

  lemma Slices()
    ensures |Merging()| == 20 && Merging()[..0] == [] && Merging()[..10] == FirstTen() && Merging()[..20] == Merging()
  {
  }

  // What the detections have to see: nothing at first, then two cycles, then two others.
  lemma Seen()
    ensures {5, 6} !in CyclesOf(GraphOf([])) && {5, 6} !in CyclesOf(GraphOf(FirstTen()))
    ensures |CyclesOf(GraphOf(FirstTen()))| == 2 == |CyclesOf(GraphOf(Merging()))|
    ensures {5, 6} in CyclesOf(GraphOf(Merging()))
  {
    hide GraphOf, CyclesOf, Pairs, EndPoints, Edges, FirstTen, NextTen;
    FirstPairs();
    NextPairs();
    PairsJoin(FirstTen(), NextTen());
    GraphIsPairs([]);
    GraphIsPairs(FirstTen());
    GraphIsPairs(Merging());
    FirstGraph(GraphOf(FirstTen()));
    SecondGraph(GraphOf(Merging()));
    NoEndPoints();
    NotThere(GraphOf([]));
    NotThere(GraphOf(FirstTen()));
  }

  /**
   The run from the start: the second detection sees a component that no detection before it saw, and
   reports nothing, because two others have merged and the number has not grown.
   */
  lemma NewComponentPassedOver(cfg: Config, table: Table, findings: seq<Findings>)
    requires Usable(cfg) && cfg.sccInterval == 1 && AllRight(cfg, table, Merging(), findings)
    ensures DetectsAt(cfg, 20) && {5, 6} in CyclesOf(GraphOf(Merging()))
    ensures forall k :: 0 <= k < 20 && DetectsAt(cfg, k) ==> {5, 6} !in CyclesOf(GraphOf(Merging()[..k]))
    ensures |findings| == 20 && findings[19].cycles == []
  {
    hide GraphOf, CyclesOf, Usable, DetectsAt, Merging, FirstTen, Right;
    Slices();
    Seen();
    forall k: nat | k <= 20
      ensures DetectsAt(cfg, k) <==> k == 0 || k == 10 || k == 20
    {
      Periods(cfg, k);
    }
    AnomaliesAtNewMaximum(cfg, table, Merging(), findings, 19);
    assert CyclesSeen(cfg, Merging(), 10) == 2 == CyclesSeen(cfg, Merging(), 20);
  }

  lemma NoEndPoints()
    ensures EndPoints([]) == {}
  {
  }

  // The collector's events that give this run.
  function Printed(e: Event): R.NetworkEvent {
    R.NetworkEvent(I.ByteSwap(e.srcIp), I.ByteSwap(e.dstIp), 80, 0, e.timestampNs)
  }

  function AllPrinted(events: seq<Event>): (es: seq<R.NetworkEvent>)
    ensures |es| == |events|
  {
    seq(|events|, i requires 0 <= i < |events| => Printed(events[i]))
  }

  lemma PrintedIsRead(events: seq<Event>)
    ensures AllHostOrder(AllPrinted(events)) == events
  {
    hide I.ByteSwap;
    forall i | 0 <= i < |events|
      ensures HostOrder(Printed(events[i])) == events[i]
    {
      I.ByteSwapTwice(events[i].srcIp);
      I.ByteSwapTwice(events[i].dstIp);
    }
  }

  /** The engine really takes this run, on the collector's lines for it. */
  method Merge(cfg: Config, networks: seq<Network>) returns (engine: Engine)
    requires Usable(cfg) && cfg.sccInterval == 1 && NetworksFit(networks)
    ensures engine.events == Merging() && |engine.findings| == 20
    ensures {5, 6} in CyclesOf(GraphOf(engine.events)) && engine.findings[19].cycles == []
  {
    hide GraphOf, CyclesOf, Usable, Right, TableAfter, Edges, AllAlerts, Pairs, AllHostOrder, AllPrinted, EventsOf;
    var events := Merging();
    PrintedIsRead(events);
    engine := RunOnCollector(cfg, networks, AllPrinted(events));
    NewComponentPassedOver(cfg, TableAfter(Inserts(networks)), engine.findings);
  }
}
