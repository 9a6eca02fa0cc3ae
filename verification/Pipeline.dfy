/**
 The pipeline engine's event loop: frequency alerts, blast radius, the communication graph and
 periodic component detection. What the loop must do is stated over the list of events so far.
 */
module Pipeline {
  import opened Words
  import opened Keys
  import opened Estimators
  import opened Graphs
  import opened Hops
  import opened Scc
  import opened GraphGrowth
  import opened LpmTrie
  import opened Alerts
  import R = RoundTrip
  import D = Detector
  import T = DetectorTheorems
  import B = Bfs
  import J = Dijkstra
  import Tarjan
  import Kosaraju

  const TWO_TO_THE_31: int := 0x8000_0000

  type int32 = x: int | -TWO_TO_THE_31 <= x < TWO_TO_THE_31

  // Conversion of a signed word to an unsigned one.
  function Unsigned(x: int32): uint64 {
    x % TWO_TO_THE_64
  }

  datatype Event = Event(srcIp: uint32, dstIp: uint32, timestampNs: uint64)

  datatype Reachability = UseBfs | UseDijkstra

  datatype Components = UseTarjan | UseKosaraju

  datatype Config = Config(
    algo: Algo, threshold: int32, windowSeconds: int32, reachability: Reachability, maxHops: int32,
    components: Components, sccInterval: int32, envelope: Envelope)

  // The interval is multiplied as a signed word; a zero interval divides by zero.
  ghost predicate Usable(cfg: Config) {
    && WellConfigured(cfg.algo)
    && cfg.sccInterval != 0 && -TWO_TO_THE_31 <= cfg.sccInterval * 10 < TWO_TO_THE_31
  }

  function WindowNs(cfg: Config): uint64 {
    Unsigned(cfg.windowSeconds) * 1_000_000_000 % TWO_TO_THE_64
  }

  function DetectionPeriod(cfg: Config): uint64 {
    var x := cfg.sccInterval * 10;
    if -TWO_TO_THE_31 <= x < TWO_TO_THE_31 then Unsigned(x) else 0
  }

  lemma PeriodIsPositive(cfg: Config)
    requires Usable(cfg)
    ensures DetectionPeriod(cfg) != 0
  {
  }

  function Radius(cfg: Config): int {
    if cfg.reachability == UseBfs then B.Depth(cfg.maxHops) else cfg.maxHops
  }

  // ---- What the loop must do ----

  // The frequency part is the port-scan detector's state machine.
  function DetectorConfig(cfg: Config): (c: D.Config)
    ensures c.algo == cfg.algo
  {
    D.Config(cfg.algo, Unsigned(cfg.threshold), WindowNs(cfg))
  }

  function Sighting(e: Event): D.Event {
    D.Event(e.srcIp, e.timestampNs)
  }

  function Sightings(events: seq<Event>): (s: seq<D.Event>)
    ensures |s| == |events|
  {
    seq(|events|, i requires 0 <= i < |events| => Sighting(events[i]))
  }

  ghost function GraphOf(events: seq<Event>): Adjacency {
    if events == [] then map[]
    else
      var e := events[|events| - 1];
      WithEdge(GraphOf(events[..|events| - 1]), e.srcIp, e.dstIp)
  }

  predicate DetectsAt(cfg: Config, n: nat) {
    var p: int := DetectionPeriod(cfg);
    p != 0 && n % p == 0
  }

  // The most components with more than one vertex any detection so far has seen.
  ghost function HighWater(cfg: Config, events: seq<Event>): nat {
    if events == [] then 0
    else
      var before := HighWater(cfg, events[..|events| - 1]);
      var now := |CyclesOf(GraphOf(events))|;
      if DetectsAt(cfg, |events|) && now > before then now else before
  }

  // What one event gives rise to.
  datatype Findings = Findings(scan: Option<(nat, int)>, blast: Option<map<Vertex, int>>, cycles: seq<Component>)

  // A port scan alert goes with every event at which the detector's alert is due.
  ghost predicate ScanIsRight(cfg: Config, srcLabel: int, events: seq<Event>, i: nat, f: Findings)
    requires Usable(cfg) && i < |events|
  {
    var dcfg, seen := DetectorConfig(cfg), Sightings(events);
    f.scan == if T.Due(dcfg, seen, i)
      then Some((T.AlertAt(dcfg, seen, i).freq, srcLabel))
      else None
  }

  // The blast radius goes with a port scan alert of a source known before the event.
  ghost predicate BlastIsRight(cfg: Config, events: seq<Event>, i: nat, f: Findings)
    requires i < |events|
  {
    var g := GraphOf(events[..i]);
    && (f.blast.Some? <==> f.scan.Some? && events[i].srcIp in g)
    && (f.blast.Some? ==> IsBall(g, events[i].srcIp, Radius(cfg), f.blast.value))
  }

  // A detection reports every component with more than one vertex, once, when there are more of
  // them than ever before, and otherwise nothing.
  ghost predicate CyclesAreRight(cfg: Config, events: seq<Event>, i: nat, f: Findings)
    requires i < |events|
  {
    var g := GraphOf(events[..i + 1]);
    if DetectsAt(cfg, i + 1) && |CyclesOf(g)| > HighWater(cfg, events[..i]) then
      ComponentSets(f.cycles) == CyclesOf(g) && |f.cycles| == |CyclesOf(g)|
    else f.cycles == []
  }

  ghost predicate Right(cfg: Config, srcLabel: int, events: seq<Event>, i: nat, f: Findings)
    requires Usable(cfg) && i < |events|
  {
    ScanIsRight(cfg, srcLabel, events, i, f) && BlastIsRight(cfg, events, i, f) && CyclesAreRight(cfg, events, i, f)
  }

  ghost function LabelOf(table: Table, e: Event): int {
    BestLabel(table, e.srcIp, 32)
  }

  ghost predicate AllRight(cfg: Config, table: Table, events: seq<Event>, findings: seq<Findings>)
    requires Usable(cfg)
  {
    && |findings| == |events|
    && forall i :: 0 <= i < |events| ==> Right(cfg, LabelOf(table, events[i]), events, i, findings[i])
  }

  // ---- Facts about growing event lists ----

  lemma SightingsSnoc(events: seq<Event>, e: Event)
    ensures Sightings(events + [e]) == Sightings(events) + [Sighting(e)]
  {
  }

  // Whether event `i` is alerted depends on the events up to `i` only.
  lemma DuePrefix(cfg: D.Config, events: seq<D.Event>, n: nat, i: nat)
    requires WellConfigured(cfg.algo) && i < n <= |events|
    ensures T.Due(cfg, events[..n], i) <==> T.Due(cfg, events, i)
    ensures T.AlertAt(cfg, events[..n], i) == T.AlertAt(cfg, events, i)
  {
    hide Answer, T.At, D.Freq;
    T.AtPrefix(cfg.windowNs, events, n, i);
    forall j | 0 <= j <= i
      ensures T.OverAt(cfg, events[..n], i, events[i].srcIp, j) <==> T.OverAt(cfg, events, i, events[i].srcIp, j)
    {
      T.AtPrefix(cfg.windowNs, events, n, j);
    }
    DueSame(cfg, events[..n], events, i);
  }

  lemma DueSame(cfg: D.Config, a: seq<D.Event>, b: seq<D.Event>, i: nat)
    requires WellConfigured(cfg.algo) && i < |a| && i < |b| && a[i] == b[i]
    requires T.Exceeds(cfg, a, i) <==> T.Exceeds(cfg, b, i)
    requires forall j :: 0 <= j <= i ==> (T.OverAt(cfg, a, i, a[i].srcIp, j) <==> T.OverAt(cfg, b, i, b[i].srcIp, j))
    ensures T.Due(cfg, a, i) <==> T.Due(cfg, b, i)
  {
    hide T.Exceeds, T.OverAt;
    assert forall j :: T.OverAt(cfg, a, i, a[i].srcIp, j) ==> 0 <= j <= i by { OverAtBounds(cfg, a, i, a[i].srcIp); }
    assert forall j :: T.OverAt(cfg, b, i, b[i].srcIp, j) ==> 0 <= j <= i by { OverAtBounds(cfg, b, i, b[i].srcIp); }
  }

  lemma OverAtBounds(cfg: D.Config, events: seq<D.Event>, i: nat, x: uint32)
    requires WellConfigured(cfg.algo)
    ensures forall j :: T.OverAt(cfg, events, i, x, j) ==> 0 <= j <= i
  {
  }

  // One more event of the frequency part.
  lemma DetectorStep(cfg: D.Config, seen: seq<D.Event>, e: D.Event)
    requires WellConfigured(cfg.algo)
    ensures var s := D.RunAll(cfg, seen);
      var w := D.Enter(s.window, e, cfg.windowNs);
      && D.RunAll(cfg, seen + [e]) == D.Next(cfg, s, e)
      && (T.Due(cfg, seen + [e], |seen|) <==> |D.Next(cfg, s, e).alerts| > |s.alerts|)
      && T.AlertAt(cfg, seen + [e], |seen|).freq == D.Freq(cfg, w, e.srcIp)
  {
    hide T.Due, D.Freq, D.Next, D.Enter;
    var all := seen + [e];
    assert all[..|seen|] == seen && all[..|all|] == all;
    T.AlertsOfRun(cfg, all, |seen|);
    T.AlertsOfRun(cfg, all, |all|);
    T.SameWindows(cfg, seen);
    T.AtStep(cfg.windowNs, all, |seen|);
  }

  // The engine's variables agree with the port-scan detector's state.
  ghost predicate Tallied(cfg: Config, events: seq<Event>, stream: seq<Key>, start: uint64, alerted: set<uint32>)
    requires Usable(cfg)
  {
    var s := D.RunAll(DetectorConfig(cfg), Sightings(events));
    stream == KeysOf(s.window.ips) && start == s.window.start && alerted == s.alerted
  }

  // The same once the window has been moved on, but before the event is counted.
  ghost predicate Rolled(cfg: Config, s: D.State, now: uint64, stream: seq<Key>, start: uint64, alerted: set<uint32>) {
    var expired := D.Expired(s.window, now, WindowNs(cfg));
    && stream == KeysOf(if expired then [] else s.window.ips)
    && start == (if expired || s.window.start == 0 then now else s.window.start)
    && alerted == if expired then {} else s.alerted
  }

  lemma NothingYet(cfg: Config, table: Table)
    requires Usable(cfg)
    ensures Tallied(cfg, [], [], 0, {}) && AllRight(cfg, table, [], []) && HighWater(cfg, []) == 0
    ensures GraphOf([]) == map[] && AllAlerts(cfg, [], []) == []
  {
  }

  lemma TallyStep(cfg: Config, events: seq<Event>, e: Event, stream: seq<Key>, start: uint64, prior: set<uint32>,
                  freq: nat)
    requires Usable(cfg)
    requires Rolled(cfg, D.RunAll(DetectorConfig(cfg), Sightings(events)), e.timestampNs, stream, start, prior)
    requires freq == Answer(cfg.algo, stream + [U32Key(e.srcIp)], U32Key(e.srcIp))
    ensures var over := freq > Unsigned(cfg.threshold) && e.srcIp !in prior;
      && Tallied(cfg, events + [e], stream + [U32Key(e.srcIp)], start, if over then prior + {e.srcIp} else prior)
      && (over <==> T.Due(DetectorConfig(cfg), Sightings(events + [e]), |events|))
      && freq == T.AlertAt(DetectorConfig(cfg), Sightings(events + [e]), |events|).freq
  {
    hide Answer, WellConfigured, U32Key, KeysOf, T.Due, T.AlertAt, Sightings, D.RunAll;
    var dcfg, ev := DetectorConfig(cfg), Sighting(e);
    var s := D.RunAll(dcfg, Sightings(events));
    SightingsSnoc(events, e);
    DetectorStep(dcfg, Sightings(events), ev);
    T.SameWindows(dcfg, Sightings(events));
    assert [] + [e.srcIp] == [e.srcIp];
    KeysOfSnoc(if D.Expired(s.window, e.timestampNs, WindowNs(cfg)) then [] else s.window.ips, e.srcIp);
  }

  lemma RightStays(cfg: Config, srcLabel: int, events: seq<Event>, e: Event, i: nat, f: Findings)
    requires Usable(cfg) && i < |events| && Right(cfg, srcLabel, events, i, f)
    ensures Right(cfg, srcLabel, events + [e], i, f)
  {
    hide T.Due, T.AlertAt, GraphOf, HighWater, CyclesOf, IsBall, WellConfigured;
    var all := events + [e];
    assert all[..i] == events[..i] && all[..i + 1] == events[..i + 1];
    var dcfg, seen := DetectorConfig(cfg), Sightings(all);
    SightingsSnoc(events, e);
    assert seen[..|events|] == Sightings(events);
    DuePrefix(dcfg, seen, |events|, i);
  }

  lemma AllRightSnoc(cfg: Config, table: Table, events: seq<Event>, findings: seq<Findings>, e: Event, f: Findings)
    requires Usable(cfg) && AllRight(cfg, table, events, findings)
    requires Right(cfg, LabelOf(table, e), events + [e], |events|, f)
    ensures AllRight(cfg, table, events + [e], findings + [f])
  {
    hide Right, LabelOf;
    forall i | 0 <= i < |events|
      ensures Right(cfg, LabelOf(table, events[i]), events + [e], i, findings[i])
    {
      RightStays(cfg, LabelOf(table, events[i]), events, e, i, findings[i]);
    }
  }

  function ScanAlert(cfg: Config, e: Event, freq: nat, srcLabel: int): Alert {
    Sealed(cfg.envelope, "port_scan", e.srcIp, Frequency(freq, cfg.threshold, srcLabel), e.timestampNs, ["port_scan"])
  }

  function BlastAlert(cfg: Config, e: Event, m: map<Vertex, int>): Alert {
    Sealed(cfg.envelope, "blast_radius", e.srcIp, Reachable(cfg.maxHops, m), e.timestampNs,
           ["blast_radius", "lateral_movement"])
  }

  function CycleAlert(cfg: Config, e: Event, c: Component): Alert {
    Sealed(cfg.envelope, "scc_anomaly", if c == [] then 0 else c[0], Members(c), e.timestampNs,
           ["scc", "architecture_violation"])
  }

  function CycleAlerts(cfg: Config, e: Event, cs: seq<Component>): (r: seq<Alert>)
    ensures |r| == |cs|
  {
    seq(|cs|, i requires 0 <= i < |cs| => CycleAlert(cfg, e, cs[i]))
  }

  // The alerts sent for one event, in order.
  function AlertsFor(cfg: Config, e: Event, f: Findings): seq<Alert> {
    (match f.scan
     case None => []
     case Some(hit) => [ScanAlert(cfg, e, hit.0, hit.1)])
    + (match f.blast
       case None => []
       case Some(m) => [BlastAlert(cfg, e, m)])
    + CycleAlerts(cfg, e, f.cycles)
  }

  function AllAlerts(cfg: Config, events: seq<Event>, findings: seq<Findings>): seq<Alert> {
    if events == [] || findings == [] then []
    else
      var n, m := |events| - 1, |findings| - 1;
      AllAlerts(cfg, events[..n], findings[..m]) + AlertsFor(cfg, events[n], findings[m])
  }

  lemma GraphOfSnoc(events: seq<Event>, e: Event)
    ensures GraphOf(events + [e]) == WithEdge(GraphOf(events), e.srcIp, e.dstIp)
    ensures (events + [e])[..|events|] == events
  {
  }

  lemma AllAlertsSnoc(cfg: Config, events: seq<Event>, findings: seq<Findings>, e: Event, f: Findings)
    ensures AllAlerts(cfg, events + [e], findings + [f]) == AllAlerts(cfg, events, findings) + AlertsFor(cfg, e, f)
  {
    assert (events + [e])[..|events|] == events && (findings + [f])[..|findings|] == findings;
  }

  // What the engine keeps of a parsed event.
  function EventOf(e: R.NetworkEvent): Event {
    Event(e.srcIp, e.dstIp, e.timestampNs)
  }

  function EventsOf(es: seq<R.NetworkEvent>): (events: seq<Event>)
    ensures |events| == |es|
  {
    seq(|es|, i requires 0 <= i < |es| => EventOf(es[i]))
  }

  lemma EventsOfSnoc(es: seq<R.NetworkEvent>, e: R.NetworkEvent)
    ensures EventsOf(es + [e]) == EventsOf(es) + [EventOf(e)]
  {
  }

  // ---- The engine ----

  class Engine {
    const cfg: Config
    const estimator: Estimator
    const classifier: Trie
    const graph: DirectedGraph
    var totalEvents: nat
    var windowStartNs: uint64
    var alertedSources: set<uint32>
    var prevNontrivial: nat
    var sent: seq<Alert>
    ghost var events: seq<Event>
    ghost var findings: seq<Findings>

    ghost predicate Separated()
      reads classifier, estimator.Repr()
    {
      && this !in estimator.Repr() && classifier !in estimator.Repr() && graph !in estimator.Repr()
      && classifier.repr !! estimator.Repr()
    }

    ghost predicate CountersValid()
      reads this`events, this`windowStartNs, this`alertedSources, this`totalEvents, estimator.Repr()
    {
      && Usable(cfg) && this !in estimator.Repr() && estimator.Valid(cfg.algo)
      && Tallied(cfg, events, estimator.Stream(), windowStartNs, alertedSources)
      && totalEvents == |events|
    }

    ghost predicate GraphValid()
      reads this`events, this`prevNontrivial, graph
      reads match estimator case Sketch(s) => {s} case Hitters(h) => {h} case Counter(c) => {c}
    {
      && graph !in estimator.Repr() && graph.Valid() && graph.adj == GraphOf(events)
      && prevNontrivial == HighWater(cfg, events)
    }

    ghost predicate FindingsValid(table: Table)
      requires Usable(cfg)
      reads this
    {
      && AllRight(cfg, table, events, findings)
      && sent == AllAlerts(cfg, events, findings)
    }

    ghost predicate Valid()
      reads this, estimator.Repr(), classifier, classifier.repr, graph
    {
      && Separated() && CountersValid() && GraphValid() && classifier.Valid()
      && FindingsValid(classifier.Stored())
    }

    constructor (cfg: Config, estimator: Estimator, classifier: Trie, graph: DirectedGraph)
      requires Usable(cfg) && estimator.Valid(cfg.algo) && estimator.Stream() == []
      requires classifier.Valid() && graph.Valid() && graph.adj == map[]
      requires classifier !in estimator.Repr() && graph !in estimator.Repr() && classifier.repr !! estimator.Repr()
      ensures Valid() && events == []
      ensures this.cfg == cfg && this.estimator == estimator && this.classifier == classifier && this.graph == graph
    {
      hide Tallied, AllRight, HighWater, GraphOf, AllAlerts, WellConfigured, Estimator.Valid, Estimator.Stream,
           Indexed, Shape, TableOf, Linked, Usable, Edges, Closed;
      this.cfg, this.estimator, this.classifier, this.graph := cfg, estimator, classifier, graph;
      totalEvents, windowStartNs, alertedSources, prevNontrivial, sent := 0, 0, {}, 0, [];
      events, findings := [], [];
      NothingYet(cfg, classifier.Stored());
    }

    // Starts the first window, or a new one when the current one is over.
    method RollWindow(now: uint64)
      requires Usable(cfg) && this !in estimator.Repr() && estimator.Valid(cfg.algo)
      requires Tallied(cfg, events, estimator.Stream(), windowStartNs, alertedSources)
      modifies this`windowStartNs, this`alertedSources, estimator.Repr()
      ensures estimator.Valid(cfg.algo)
      ensures Rolled(cfg, D.RunAll(DetectorConfig(cfg), Sightings(events)), now,
                     estimator.Stream(), windowStartNs, alertedSources)
    {
      hide WellConfigured, D.RunAll, Sightings;
      if windowStartNs == 0 {
        windowStartNs := now;
      }
      var windowNs := WindowNs(cfg);
      if Minus64(now, windowStartNs) > windowNs {
        estimator.Reset(cfg.algo);
        alertedSources := {};
        windowStartNs := now;
      }
    }

    // Counts one more event of the source.
    method Measure(x: uint32) returns (freq: nat)
      requires Usable(cfg) && this !in estimator.Repr() && estimator.Valid(cfg.algo)
      modifies estimator.Repr()
      ensures estimator.Valid(cfg.algo) && estimator.Stream() == old(estimator.Stream()) + [U32Key(x)]
      ensures freq == Answer(cfg.algo, estimator.Stream(), U32Key(x))
    {
      hide Answer, WellConfigured, U32Key;
      estimator.RecordU32(cfg.algo, x);
      freq := estimator.EstimateU32(cfg.algo, x);
    }

    // The window, the frequency of the source and whether it is to be alerted.
    method CountSource(e: Event) returns (freq: nat, alert: bool)
      requires CountersValid()
      modifies this`totalEvents, this`windowStartNs, this`alertedSources, this`events, estimator.Repr()
      ensures CountersValid() && events == old(events) + [e]
      ensures alert <==> T.Due(DetectorConfig(cfg), Sightings(events), |old(events)|)
      ensures alert ==> freq == T.AlertAt(DetectorConfig(cfg), Sightings(events), |old(events)|).freq
    {
      hide Answer, WellConfigured, U32Key, KeysOf, T.Due, T.AlertAt,
           Rolled, Tallied, Sightings, D.RunAll, DetectorConfig;
      ghost var s := D.RunAll(DetectorConfig(cfg), Sightings(events));
      totalEvents := totalEvents + 1;
      RollWindow(e.timestampNs);
      ghost var stream, prior := estimator.Stream(), alertedSources;
      freq := Measure(e.srcIp);
      alert := freq > Unsigned(cfg.threshold) && e.srcIp !in alertedSources;
      if alert {
        alertedSources := alertedSources + {e.srcIp};
      }
      TallyStep(cfg, events, e, stream, windowStartNs, prior, freq);
      events := events + [e];
    }

    method BlastRadiusOf(src: Vertex) returns (m: map<Vertex, int>)
      requires graph.Valid()
      ensures IsBall(graph.adj, src, Radius(cfg), m)
    {
      match cfg.reachability
      case UseBfs => m := B.ReachableWithin(graph, src, cfg.maxHops);
      case UseDijkstra => m := J.ReachableWithin(graph, src, cfg.maxHops);
    }

    method FindSccs() returns (sccs: seq<Component>)
      requires graph.Valid()
      ensures SccPartition(graph.adj, sccs)
    {
      ghost var steps: nat;
      match cfg.components
      case UseTarjan => sccs, steps := Tarjan.FindSccs(graph);
      case UseKosaraju => sccs, steps := Kosaraju.FindSccs(graph);
    }

    // The periodic detection: the components to be reported.
    method DetectCycles() returns (cycles: seq<Component>)
      requires graph.Valid()
      modifies this`prevNontrivial
      ensures var now := CyclesOf(graph.adj);
        if |now| > old(prevNontrivial)
        then ComponentSets(cycles) == now && |cycles| == |now| && prevNontrivial == |now|
        else cycles == [] && prevNontrivial == old(prevNontrivial)
    {
      hide SccPartition, CyclesOf, ComponentSets;
      var sccs := FindSccs();
      var nontrivial := 0;
      for i := 0 to |sccs|
        modifies {}
        invariant nontrivial == |Cycles(sccs[..i])|
      {
        assert sccs[..i + 1][..i] == sccs[..i];
        if |sccs[i]| > 1 { nontrivial := nontrivial + 1; }
      }
      assert sccs[..|sccs|] == sccs;
      CyclesOfPartition(graph.adj, sccs);
      cycles := [];
      if nontrivial > prevNontrivial {
        for i := 0 to |sccs|
          modifies {}
          invariant cycles == Cycles(sccs[..i])
        {
          assert sccs[..i + 1][..i] == sccs[..i];
          if |sccs[i]| <= 1 { continue; }
          cycles := cycles + [sccs[i]];
        }
        prevNontrivial := nontrivial;
      }
    }

    // Adds the event's end points and its edge to the graph.
    method Connect(e: Event)
      requires graph.Valid()
      modifies graph
      ensures graph.Valid() && graph.adj == WithEdge(old(graph.adj), e.srcIp, e.dstIp)
    {
      var known := graph.HasVertex(e.srcIp);
      if !known { graph.AddVertex(e.srcIp); }
      known := graph.HasVertex(e.dstIp);
      if !known { graph.AddVertex(e.dstIp); }
      graph.AddEdge(e.srcIp, e.dstIp);
    }

    // The frequency alert of an event and the blast radius that goes with it.
    method Scan(e: Event, srcLabel: int) returns (scan: Option<(nat, int)>, blast: Option<map<Vertex, int>>)
      requires GraphValid() && CountersValid()
      modifies this`totalEvents, this`windowStartNs, this`alertedSources, this`events, estimator.Repr()
      ensures CountersValid() && events == old(events) + [e]
      ensures forall cycles :: ScanIsRight(cfg, srcLabel, events, |old(events)|, Findings(scan, blast, cycles))
      ensures forall cycles :: BlastIsRight(cfg, events, |old(events)|, Findings(scan, blast, cycles))
    {
      hide T.Due, T.AlertAt, IsBall, GraphOf, Tallied, WellConfigured, Edges, Closed, Sightings, DetectorConfig, Radius;
      var freq, alert := CountSource(e);
      assert events[..|old(events)|] == old(events);
      scan, blast := None, None;
      if alert {
        scan := Some((freq, srcLabel));
        var known := graph.HasVertex(e.srcIp);
        if known {
          var m := BlastRadiusOf(e.srcIp);
          blast := Some(m);
        }
      }
    }

    // The periodic part, after the event's edge has been added.
    method Periodic() returns (cycles: seq<Component>)
      requires Usable(cfg) && graph.Valid() && events != [] && totalEvents == |events| && graph.adj == GraphOf(events)
      requires prevNontrivial == HighWater(cfg, events[..|events| - 1])
      modifies this`prevNontrivial
      ensures prevNontrivial == HighWater(cfg, events)
      ensures forall scan, blast :: CyclesAreRight(cfg, events, |events| - 1, Findings(scan, blast, cycles))
    {
      hide CyclesOf, ComponentSets, GraphOf, Edges, Closed, WellConfigured;
      assert events[..|events|] == events;
      PeriodIsPositive(cfg);
      cycles := [];
      if totalEvents % DetectionPeriod(cfg) == 0 {
        cycles := DetectCycles();
      }
    }

    // Everything the loop does for one event after the classifier lookups.
    method React(e: Event, srcLabel: int) returns (f: Findings)
      requires GraphValid() && CountersValid()
      modifies this`totalEvents, this`windowStartNs, this`alertedSources, this`events, this`prevNontrivial
      modifies estimator.Repr(), graph
      ensures GraphValid() && CountersValid() && events == old(events) + [e]
      ensures Right(cfg, srcLabel, events, |old(events)|, f)
    {
      hide Tallied, ScanIsRight, BlastIsRight, CyclesAreRight, HighWater, GraphOf, WellConfigured, Edges, Closed;
      GraphOfSnoc(events, e);
      var scan, blast := Scan(e, srcLabel);
      Connect(e);
      var cycles := Periodic();
      f := Findings(scan, blast, cycles);
    }

    // The alerts go to the handlers one by one.
    method Send(e: Event, f: Findings)
      modifies this`sent
      ensures sent == old(sent) + AlertsFor(cfg, e, f)
    {
      hide ScanAlert, BlastAlert, CycleAlert;
      if f.scan.Some? {
        sent := sent + [ScanAlert(cfg, e, f.scan.value.0, f.scan.value.1)];
      }
      if f.blast.Some? {
        sent := sent + [BlastAlert(cfg, e, f.blast.value)];
      }
      ghost var before := sent;
      for i := 0 to |f.cycles|
        invariant sent == before + CycleAlerts(cfg, e, f.cycles[..i])
      {
        hide ScanAlert, BlastAlert, CycleAlert;
        assert CycleAlerts(cfg, e, f.cycles[..i + 1]) ==
          CycleAlerts(cfg, e, f.cycles[..i]) + [CycleAlert(cfg, e, f.cycles[i])];
        sent := sent + [CycleAlert(cfg, e, f.cycles[i])];
      }
      assert f.cycles[..|f.cycles|] == f.cycles;
    }

    method Process(e: Event)
      requires Valid()
      modifies this, estimator.Repr(), graph
      ensures Valid() && events == old(events) + [e] && classifier.Stored() == old(classifier.Stored())
    {
      hide AllRight, Right, HighWater, GraphOf, AllAlerts, Tallied, WellConfigured, Indexed, Shape, TableOf, Linked,
           Edges, Closed, AlertsFor, BestLabel, Usable, Estimator.Valid, Estimator.Stream, GraphValid, Trie.Valid,
           Trie.Stored, DirectedGraph.Valid;
      var srcLabel := classifier.Lookup(e.srcIp);
      var dstLabel := classifier.Lookup(e.dstIp);
      var f := React(e, srcLabel);
      Report(classifier.Stored(), old(events), e, f);
    }

    // The alerts of the event's findings.
    method Report(ghost table: Table, ghost before: seq<Event>, e: Event, f: Findings)
      requires Usable(cfg) && events == before + [e] && Right(cfg, LabelOf(table, e), events, |before|, f)
      requires AllRight(cfg, table, before, findings) && sent == AllAlerts(cfg, before, findings)
      modifies this`sent, this`findings
      ensures FindingsValid(table)
    {
      hide AllRight, Right, AllAlerts, AlertsFor, LabelOf, Usable;
      AllRightSnoc(cfg, table, before, findings, e, f);
      AllAlertsSnoc(cfg, before, findings, e, f);
      Send(e, f);
      findings := findings + [f];
    }

    // The numbers of vertices and edges and the components, as written out at the end.
    method Snapshot() returns (vertices: nat, edges: nat, sccs: seq<Component>)
      requires Valid()
      ensures vertices == |GraphOf(events)| && edges == |Edges(GraphOf(events))|
      ensures SccPartition(GraphOf(events), sccs)
    {
      hide CountersValid, GraphOf, HighWater, AllRight, AllAlerts, Indexed, Shape, TableOf, Linked, SccPartition,
           Usable, Estimator.Valid, Estimator.Stream, Edges;
      sccs := FindSccs();
      vertices, edges := |graph.adj|, graph.edgeCount;
    }

    // The loop over the lines; a line that makes the parser throw ends it.
    method ProcessAll(lines: seq<string>) returns (thrown: bool)
      requires Valid() && events == []
      modifies this, estimator.Repr(), graph
      ensures Valid() && classifier.Stored() == old(classifier.Stored())
      ensures events == EventsOf(R.EventsIn(lines).events) && thrown == R.EventsIn(lines).thrown
    {
      hide CountersValid, GraphValid, FindingsValid, Indexed, Shape, TableOf, Linked, Estimator.Valid, Estimator.Stream,
           Edges, Closed, R.PipelineEvent;
      for i := 0 to |lines|
        invariant Valid() && classifier.Stored() == old(classifier.Stored())
        invariant events == EventsOf(R.EventsIn(lines[..i]).events) && !R.EventsIn(lines[..i]).thrown
      {
        hide CountersValid, GraphValid, FindingsValid, Indexed, Shape, TableOf, Linked, Estimator.Valid,
             Estimator.Stream, Edges, Closed, R.PipelineEvent;
        assert lines[..i + 1][..i] == lines[..i];
        var outcome := R.ParseEvent(lines[i]);
        match outcome
        case Skipped =>
        case Thrown =>
          R.ThrowsForGood(lines, i + 1);
          return true;
        case Parsed(e) =>
          EventsOfSnoc(R.EventsIn(lines[..i]).events, e);
          Process(EventOf(e));
      }
      assert lines[..|lines|] == lines;
      thrown := false;
    }
  }

  datatype Network = Network(prefix: uint32, len: nat, tag: int)

  ghost predicate NetworksFit(networks: seq<Network>) {
    forall i :: 0 <= i < |networks| ==> networks[i].len <= 32
  }

  function Inserts(networks: seq<Network>): (ops: seq<Op>)
    ensures |ops| == |networks|
  {
    seq(|networks|, i requires 0 <= i < |networks| => Add(networks[i].prefix, networks[i].len, networks[i].tag))
  }

  method Setup(cfg: Config, networks: seq<Network>) returns (engine: Engine)
    requires Usable(cfg) && NetworksFit(networks)
    ensures fresh(engine) && fresh(engine.graph) && fresh(engine.estimator.Repr())
    ensures engine.Valid() && engine.cfg == cfg && engine.events == []
    ensures engine.classifier.Stored() == TableAfter(Inserts(networks))
  {
    hide Indexed, Shape, TableOf, Linked, TableAfter, Edges, Closed, Tallied, AllRight, AllAlerts, GraphOf, HighWater,
         Estimator.Valid, Estimator.Stream, DetectionPeriod, Engine.Valid, Estimator.Repr;
    var classifier := Replay(Inserts(networks));
    var graph := new DirectedGraph();
    var made := MakeEstimator(cfg.algo);
    engine := new Engine(cfg, made.value, classifier, graph);
  }

  /**
   The whole program on its input lines: set up, then process every event up to the end or the first
   line that makes the parser throw.
   */
  method Run(cfg: Config, networks: seq<Network>, lines: seq<string>) returns (engine: Engine, thrown: bool)
    requires Usable(cfg) && NetworksFit(networks)
    ensures engine.Valid() && engine.cfg == cfg
    ensures engine.events == EventsOf(R.EventsIn(lines).events) && thrown == R.EventsIn(lines).thrown
    ensures engine.classifier.Stored() == TableAfter(Inserts(networks))
  {
    hide WellConfigured, TableOf, TableAfter, Engine.Valid, GraphOf, Edges, R.EventsIn;
    engine := Setup(cfg, networks);
    thrown := engine.ProcessAll(lines);
  }
}
