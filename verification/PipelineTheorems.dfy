/** What the engine's event loop guarantees over a whole run. */
module PipelineTheorems {
  import opened Words
  import opened Estimators
  import opened Sets
  import opened Graphs
  import opened Hops
  import opened Scc
  import opened GraphGrowth
  import opened LpmTrie
  import opened Pipeline
  import R = RoundTrip
  import I = Ipv4
  import D = Detector
  import T = DetectorTheorems

  ghost function Pairs(events: seq<Event>): set<(Vertex, Vertex)> {
    set e | e in events :: (e.srcIp, e.dstIp)
  }

  ghost function EndPoints(events: seq<Event>): set<Vertex> {
    (set e | e in events :: e.srcIp) + (set e | e in events :: e.dstIp)
  }

  lemma PairsSnoc(events: seq<Event>, e: Event)
    ensures Pairs(events + [e]) == Pairs(events) + {(e.srcIp, e.dstIp)}
    ensures EndPoints(events + [e]) == EndPoints(events) + {e.srcIp, e.dstIp}
  {
    assert forall x :: x in events + [e] <==> x in events || x == e;
    forall p | p in Pairs(events) + {(e.srcIp, e.dstIp)}
      ensures p in Pairs(events + [e])
    {
      if p in Pairs(events) {
        var x :| x in events && p == (x.srcIp, x.dstIp);
        assert x in events + [e];
      } else {
        assert e in events + [e];
      }
    }
    forall v | v in EndPoints(events) + {e.srcIp, e.dstIp}
      ensures v in EndPoints(events + [e])
    {
      if v in EndPoints(events) {
        var x :| x in events && (v == x.srcIp || v == x.dstIp);
        assert x in events + [e];
      } else {
        assert e in events + [e];
      }
    }
  }

  /** The graph holds exactly the (source, destination) pairs of the events so far. */
  lemma {:induction false} GraphIsPairs(events: seq<Event>)
    ensures Edges(GraphOf(events)) == Pairs(events)
    ensures GraphOf(events).Keys == EndPoints(events)
    ensures Closed(GraphOf(events))
  {
    if events == [] {
      assert Edges(map[]) == {};
    } else {
      var n := |events| - 1;
      var e := events[n];
      GraphIsPairs(events[..n]);
      assert events == events[..n] + [e];
      PairsSnoc(events[..n], e);
      EdgesWithEdge(GraphOf(events[..n]), e.srcIp, e.dstIp);
      EdgeWithEdge(GraphOf(events[..n]), e.srcIp, e.dstIp);
    }
  }

  lemma {:induction false} GraphGrows(events: seq<Event>, n: nat, m: nat)
    requires n <= m <= |events|
    ensures SubGraph(GraphOf(events[..n]), GraphOf(events[..m]))
  {
    if n < m {
      GraphGrows(events, n, m - 1);
      assert events[..m][..m - 1] == events[..m - 1];
      var e := events[m - 1];
      EdgeWithEdge(GraphOf(events[..m - 1]), e.srcIp, e.dstIp);
    }
  }

  /**
   A component found after `n` events is contained in exactly one component found after any later
   event, whichever detectors found them.
   */
  lemma DetectionsRefine(events: seq<Event>, n: nat, m: nat, early: seq<Component>, late: seq<Component>, i: nat)
    returns (j: nat)
    requires n <= m <= |events| && i < |early|
    requires SccPartition(GraphOf(events[..n]), early) && SccPartition(GraphOf(events[..m]), late)
    ensures j < |late| && Elements(early[i]) <= Elements(late[j])
    ensures forall k :: 0 <= k < |late| && Elements(early[i]) <= Elements(late[k]) ==> k == j
  {
    var a, b := GraphOf(events[..n]), GraphOf(events[..m]);
    GraphGrows(events, n, m);
    var x :| x in Elements(early[i]);
    AllInUnion(early, i);
    j := IndexOf(late, x);
    ComponentsOnlyGrow(a, b, Elements(early[i]), Elements(late[j]), x);
  }

  /** A source's later blast radius contains every earlier one, with no longer distances. */
  lemma BlastRadiusGrows(cfg: Config, table: Table, events: seq<Event>, findings: seq<Findings>, i: nat, j: nat)
    requires Usable(cfg) && AllRight(cfg, table, events, findings)
    requires i <= j < |events| && events[i].srcIp == events[j].srcIp
    requires findings[i].blast.Some? && findings[j].blast.Some?
    ensures forall v :: v in findings[i].blast.value ==>
        v in findings[j].blast.value && findings[j].blast.value[v] <= findings[i].blast.value[v]
  {
    hide ScanIsRight, CyclesAreRight, GraphOf, IsBall, LabelOf;
    GraphGrows(events, i, j);
    assert Right(cfg, LabelOf(table, events[i]), events, i, findings[i]);
    assert Right(cfg, LabelOf(table, events[j]), events, j, findings[j]);
    BallsOnlyGrow(GraphOf(events[..i]), GraphOf(events[..j]), events[i].srcIp, Radius(cfg),
                  findings[i].blast.value, findings[j].blast.value);
  }

  // The port scan alerts among the first `n` findings, as the detector would report them.
  ghost function Scans(events: seq<Event>, findings: seq<Findings>, n: nat): seq<(uint32, nat, uint64, nat)>
    requires n <= |events| == |findings|
  {
    if n == 0 then []
    else
      Scans(events, findings, n - 1) +
      match findings[n - 1].scan
      case None => []
      case Some(hit) => [(events[n - 1].srcIp, hit.0, events[n - 1].timestampNs, n)]
  }

  ghost function Reports(alerts: seq<D.Alert>): (r: seq<(uint32, nat, uint64, nat)>)
    ensures |r| == |alerts|
  {
    seq(|alerts|, i requires 0 <= i < |alerts| =>
      (alerts[i].srcIp, alerts[i].freq, alerts[i].timestampNs, alerts[i].eventIndex))
  }

  /**
   The engine's port scan alerts are those of the stand-alone port-scan detector on the same
   events, so everything proved of the detector's runs holds of the engine's.
   */
  lemma PortScansAreDetectorAlerts(cfg: Config, table: Table, events: seq<Event>, findings: seq<Findings>)
    requires Usable(cfg) && AllRight(cfg, table, events, findings)
    ensures Scans(events, findings, |events|) == Reports(D.RunAll(DetectorConfig(cfg), Sightings(events)).alerts)
  {
    var dcfg, seen := DetectorConfig(cfg), Sightings(events);
    ScansUpTo(cfg, table, events, findings, |events|);
    assert seen[..|seen|] == seen;
    T.AlertsOfRun(dcfg, seen, |seen|);
  }

  lemma {:induction false} ScansUpTo(cfg: Config, table: Table, events: seq<Event>, findings: seq<Findings>, n: nat)
    requires Usable(cfg) && AllRight(cfg, table, events, findings) && n <= |events|
    ensures Scans(events, findings, n) == Reports(T.AlertsUpTo(DetectorConfig(cfg), Sightings(events), n))
  {
    hide T.Due, BlastIsRight, CyclesAreRight, LabelOf, WellConfigured, D.Freq;
    if n > 0 {
      ScansUpTo(cfg, table, events, findings, n - 1);
      assert Right(cfg, LabelOf(table, events[n - 1]), events, n - 1, findings[n - 1]);
      ReportsSnoc(T.AlertsUpTo(DetectorConfig(cfg), Sightings(events), n - 1),
                  T.AlertAt(DetectorConfig(cfg), Sightings(events), n - 1));
    }
  }

  lemma ReportsSnoc(alerts: seq<D.Alert>, a: D.Alert)
    ensures Reports(alerts + [a]) == Reports(alerts) + [(a.srcIp, a.freq, a.timestampNs, a.eventIndex)]
    ensures alerts + [] == alerts
  {
  }

  // The number of larger components a detection after `k` events sees.
  ghost function CyclesSeen(cfg: Config, events: seq<Event>, k: nat): nat
    requires k <= |events|
  {
    if k > 0 && DetectsAt(cfg, k) then |CyclesOf(GraphOf(events[..k]))| else 0
  }

  /** The high-water mark is the maximum over all detections so far. */
  lemma {:induction false} HighWaterIsMaximum(cfg: Config, events: seq<Event>)
    ensures forall k :: 0 <= k <= |events| ==> CyclesSeen(cfg, events, k) <= HighWater(cfg, events)
    ensures exists k :: 0 <= k <= |events| && CyclesSeen(cfg, events, k) == HighWater(cfg, events)
  {
    hide DetectsAt, CyclesOf, GraphOf;
    if events == [] {
      assert CyclesSeen(cfg, events, 0) == 0;
    } else {
      var n := |events| - 1;
      HighWaterIsMaximum(cfg, events[..n]);
      assert forall k :: 0 <= k <= n ==> events[..n][..k] == events[..k];
      assert events[..n + 1] == events;
      assert forall k :: 0 <= k <= n ==> CyclesSeen(cfg, events, k) == CyclesSeen(cfg, events[..n], k);
      var k :| 0 <= k <= n && CyclesSeen(cfg, events[..n], k) == HighWater(cfg, events[..n]);
      assert CyclesSeen(cfg, events, k) == HighWater(cfg, events[..n]);
      assert CyclesSeen(cfg, events, n + 1) <= HighWater(cfg, events);
    }
  }

  /**
   A detection raises anomalies exactly when it sees more larger components than every detection
   before it, and then one for each of them.
   */
  lemma AnomaliesAtNewMaximum(cfg: Config, table: Table, events: seq<Event>, findings: seq<Findings>, i: nat)
    requires Usable(cfg) && AllRight(cfg, table, events, findings) && i < |events|
    ensures findings[i].cycles != [] <==>
      DetectsAt(cfg, i + 1) && forall k :: 0 <= k <= i ==> CyclesSeen(cfg, events, k) < CyclesSeen(cfg, events, i + 1)
    ensures findings[i].cycles != [] ==> ComponentSets(findings[i].cycles) == CyclesOf(GraphOf(events[..i + 1]))
  {
    hide DetectsAt, CyclesOf, GraphOf, ScanIsRight, BlastIsRight, ComponentSets, LabelOf, Usable;
    assert Right(cfg, LabelOf(table, events[i]), events, i, findings[i]);
    HighWaterIsMaximum(cfg, events[..i]);
    assert forall k :: 0 <= k <= i ==> events[..i][..k] == events[..k];
    assert forall k :: 0 <= k <= i ==> CyclesSeen(cfg, events, k) == CyclesSeen(cfg, events[..i], k);
    var k :| 0 <= k <= i && CyclesSeen(cfg, events[..i], k) == HighWater(cfg, events[..i]);
    assert CyclesSeen(cfg, events, k) == HighWater(cfg, events[..i]);
  }

  /**
   A component with several vertices is reported at a detection exactly when that detection sees more
   of them than every detection before it, whether or not it was there before.
   */
  lemma ComponentReported(cfg: Config, table: Table, events: seq<Event>, findings: seq<Findings>, i: nat,
                          c: set<Vertex>)
    requires Usable(cfg) && AllRight(cfg, table, events, findings) && i < |events|
    requires DetectsAt(cfg, i + 1) && c in CyclesOf(GraphOf(events[..i + 1]))
    ensures c in ComponentSets(findings[i].cycles) <==>
      forall k :: 0 <= k <= i ==> CyclesSeen(cfg, events, k) < CyclesSeen(cfg, events, i + 1)
  {
    hide DetectsAt, CyclesOf, GraphOf, CyclesSeen, Usable, AllRight;
    AnomaliesAtNewMaximum(cfg, table, events, findings, i);
  }

  // ---- From the collector to the alerts ----

  // The collector's event as the engine sees it.
  function HostOrder(e: R.NetworkEvent): Event {
    Event(I.ByteSwap(e.srcIp), I.ByteSwap(e.dstIp), e.timestampNs)
  }

  function AllHostOrder(es: seq<R.NetworkEvent>): (events: seq<Event>)
    ensures |events| == |es|
  {
    seq(|es|, i requires 0 <= i < |es| => HostOrder(es[i]))
  }

  lemma CollectorEvents(es: seq<R.NetworkEvent>)
    ensures var r := R.EventsIn(R.CollectorLines(es)); EventsOf(r.events) == AllHostOrder(es) && !r.thrown
  {
    hide R.EventsIn, R.CollectorLines, I.ByteSwap;
    R.StreamIsReceived(es);
  }

  /**
   From the events the collector prints to the alerts the engine sends: nothing throws, the graph is
   that of the host-order address pairs, and the alerts are those these events call for.
   */
  method RunOnCollector(cfg: Config, networks: seq<Network>, es: seq<R.NetworkEvent>) returns (engine: Engine)
    requires Usable(cfg) && NetworksFit(networks)
    ensures engine.events == AllHostOrder(es) && Edges(engine.graph.adj) == Pairs(AllHostOrder(es))
    ensures |engine.events| == |es| && forall i :: 0 <= i < |es| ==>
        && engine.events[i].srcIp == I.ByteSwap(es[i].srcIp) && engine.events[i].dstIp == I.ByteSwap(es[i].dstIp)
        && engine.events[i].timestampNs == es[i].timestampNs
    ensures AllRight(cfg, TableAfter(Inserts(networks)), AllHostOrder(es), engine.findings)
    ensures engine.sent == AllAlerts(cfg, AllHostOrder(es), engine.findings)
  {
    hide R.EventsIn, R.CollectorLines, I.ByteSwap, WellConfigured, Edges, Pairs, AllRight, AllAlerts, TableAfter,
         TableOf, Indexed, Shape, Linked, Tallied, Usable;
    var thrown;
    engine, thrown := Run(cfg, networks, R.CollectorLines(es));
    CollectorEvents(es);
    GraphIsPairs(engine.events);
  }
}
