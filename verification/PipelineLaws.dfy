/** What the engine's settings, windows and alerts mean, in plain terms. */
module PipelineLaws {
  import opened Words
  import opened Sets
  import opened Estimators
  import opened Graphs
  import opened Paths
  import opened Hops
  import opened Scc
  import opened GraphGrowth
  import opened LpmTrie
  import opened Alerts
  import opened Pipeline
  import opened PipelineTheorems
  import I = Ipv4
  import D = Detector
  import T = DetectorTheorems
  import L = WindowLaws

  // ---- Settings ----

  /** The window is given in seconds; a negative number of them wraps. */
  lemma WindowSeconds(cfg: Config)
    ensures cfg.windowSeconds >= 0 ==> WindowNs(cfg) == cfg.windowSeconds * 1_000_000_000
    ensures cfg.windowSeconds < 0 ==>
        WindowNs(cfg) == 0x1_0000_0000_0000_0000 + cfg.windowSeconds * 1_000_000_000
  {
  }

  /**
   A negative threshold becomes one that no count below 2^63 exceeds.
   */
  lemma Threshold(cfg: Config)
    ensures cfg.threshold >= 0 ==> DetectorConfig(cfg).threshold == cfg.threshold
    ensures cfg.threshold < 0 ==> DetectorConfig(cfg).threshold >= 0x8000_0000_0000_0000
  {
  }

  /** Detections come every ten times the interval, and with a negative interval not before 2^63 events. */
  lemma DetectionEvery(cfg: Config, n: nat)
    requires Usable(cfg)
    ensures cfg.sccInterval > 0 ==> (DetectsAt(cfg, n) <==> n % (10 * cfg.sccInterval) == 0)
    ensures cfg.sccInterval < 0 && 0 < n < 0x8000_0000_0000_0000 ==> !DetectsAt(cfg, n)
  {
  }

  // ---- The window ----

  /** The engine's window is the one of its last event. */
  lemma EngineWindow(e: Engine)
    requires e.Valid() && e.events != []
    ensures e.windowStartNs == T.At(WindowNs(e.cfg), Sightings(e.events), |e.events| - 1).start
  {
    hide T.At;
    var seen := Sightings(e.events);
    T.SameWindows(DetectorConfig(e.cfg), seen);
    assert seen[..|seen|] == seen;
    StartOfLast(WindowNs(e.cfg), seen);
  }

  lemma StartOfLast(windowNs: uint64, seen: seq<D.Event>)
    requires seen != []
    ensures T.At(windowNs, seen, |seen| - 1) == T.WindowAfter(windowNs, seen)
  {
    assert seen[..|seen|] == seen;
  }

  /**
   An event stays in the window of the one before, unless that has not started yet, if and only if it
   lies inside it; otherwise it opens the next at its own time.
   */
  lemma EngineWindowLaw(cfg: Config, events: seq<Event>, i: nat)
    requires 0 < i < |events|
    ensures var v, w := T.At(WindowNs(cfg), Sightings(events), i - 1), T.At(WindowNs(cfg), Sightings(events), i);
      var t := events[i].timestampNs;
      && (T.Together(WindowNs(cfg), Sightings(events), i - 1, i) <==>
          v.start == 0 || L.Inside(v.start, t, WindowNs(cfg)))
      && (w.start == if T.Together(WindowNs(cfg), Sightings(events), i - 1, i) && v.start != 0 then v.start else t)
  {
    hide T.At;
    L.WindowLaw(WindowNs(cfg), Sightings(events), i);
  }

  // ---- The blast radius ----

  /**
   The blast radius sent with an event is the ball of the configured number of hops in the graph
   before the event, whichever analyzer computes it. For a negative number it is the source alone
   with breadth-first search and empty with Dijkstra.
   */
  lemma BlastRadiusIsBall(cfg: Config, table: Table, events: seq<Event>, findings: seq<Findings>, i: nat)
    requires Usable(cfg) && AllRight(cfg, table, events, findings)
    requires i < |events| && findings[i].blast.Some?
    ensures var m := findings[i].blast.value;
      && (cfg.maxHops >= 0 ==> IsBall(GraphOf(events[..i]), events[i].srcIp, cfg.maxHops, m))
      && (cfg.maxHops < 0 ==> m == if cfg.reachability == UseBfs then map[events[i].srcIp := 0] else map[])
  {
    hide ScanIsRight, CyclesAreRight, GraphOf, IsBall, LabelOf, Usable;
    assert Right(cfg, LabelOf(table, events[i]), events, i, findings[i]);
    if cfg.maxHops < 0 {
      if cfg.reachability == UseBfs {
        PointBall(GraphOf(events[..i]), events[i].srcIp, findings[i].blast.value);
      } else {
        EmptyBall(GraphOf(events[..i]), events[i].srcIp, cfg.maxHops, findings[i].blast.value);
      }
    }
  }

  lemma PointBall(adj: Adjacency, s: Vertex, m: map<Vertex, int>)
    requires IsBall(adj, s, 0, m)
    ensures m == map[s := 0]
  {
    WithinSelf(adj, s, 0);
    forall v | v in m
      ensures v == s && m[v] == 0
    {
      var p :| IsPath(adj, p, s, v) && |p| <= m[v] + 1;
      var q :| IsPath(adj, q, s, v) && |q| <= 1;
      WithinSelf(adj, s, 0);
    }
  }

  lemma EmptyBall(adj: Adjacency, s: Vertex, k: int, m: map<Vertex, int>)
    requires k < 0 && IsBall(adj, s, k, m)
    ensures m == map[]
  {
    forall v
      ensures v !in m
    {
      assert !Within(adj, s, v, k);
    }
  }

  // ---- The alerts ----

  // What every alert of event `e` carries.
  ghost predicate IsFrom(cfg: Config, e: Event, a: Alert) {
    && a.timestampNs == e.timestampNs && a.severity == SeverityFor(a.kind, cfg.envelope.rules)
    && a.nodeName == cfg.envelope.nodeName && a.namespace == cfg.envelope.namespace
  }

  // The source is written so that both parsers read this address.
  ghost predicate Names(a: Alert, ip: uint32) {
    I.IpOf(I.PipelineReader, a.source) == Some(ip) == I.IpOf(I.ToolReader, a.source)
  }

  // The label of the longest configured network that holds the address, or -1.
  ghost predicate IsLabel(table: Table, ip: uint32, l: int) {
    if Matched(table, ip, 32) then forall p :: Longest(table, ip, 32, p) ==> l == table[p] else l == -1
  }

  ghost predicate IsScanAlert(cfg: Config, table: Table, events: seq<Event>, i: nat, a: Alert)
    requires Usable(cfg) && i < |events|
  {
    && a.kind == "port_scan" && a.tags == ["port_scan"] && IsFrom(cfg, events[i], a) && Names(a, events[i].srcIp)
    && T.Due(DetectorConfig(cfg), Sightings(events), i)
    && a.details.Frequency? && a.details.threshold == cfg.threshold
    && a.details.freq == T.AlertAt(DetectorConfig(cfg), Sightings(events), i).freq
    && IsLabel(table, events[i].srcIp, a.details.srcLabel)
  }

  ghost predicate IsBlastAlert(cfg: Config, events: seq<Event>, i: nat, a: Alert)
    requires i < |events|
  {
    && a.kind == "blast_radius" && a.tags == ["blast_radius", "lateral_movement"]
    && IsFrom(cfg, events[i], a) && Names(a, events[i].srcIp)
    && a.details.Reachable? && a.details.maxHops == cfg.maxHops
    && (cfg.maxHops >= 0 ==> IsBall(GraphOf(events[..i]), events[i].srcIp, cfg.maxHops, a.details.hops))
  }

  ghost predicate IsCycleAlert(cfg: Config, events: seq<Event>, i: nat, c: Component, a: Alert)
    requires i < |events|
  {
    && a.kind == "scc_anomaly" && a.tags == ["scc", "architecture_violation"] && IsFrom(cfg, events[i], a)
    && a.details == Members(c) && c != [] && Names(a, c[0]) && Elements(c) in CyclesOf(GraphOf(events[..i + 1]))
  }

  // How many alerts of each sort the event gives rise to.
  function Scanned(f: Findings): nat {
    if f.scan.Some? then 1 else 0
  }

  function Blasted(f: Findings): nat {
    if f.blast.Some? then 1 else 0
  }

  /**
   The alerts of one event: at most one port scan, at most one blast radius right after it, then one
   for each component found, each with its own kind, address, details, time and tags.
   */
  lemma AlertsOfEvent(cfg: Config, table: Table, events: seq<Event>, findings: seq<Findings>, i: nat)
    requires Usable(cfg) && AllRight(cfg, table, events, findings) && i < |events|
    ensures var sent, f := AlertsFor(cfg, events[i], findings[i]), findings[i];
      var s, b := Scanned(f), Blasted(f);
      && |sent| == s + b + |f.cycles| && b <= s
      && (s == 1 ==> IsScanAlert(cfg, table, events, i, sent[0]))
      && (b == 1 ==> IsBlastAlert(cfg, events, i, sent[s]))
      && (forall k :: 0 <= k < |f.cycles| ==>
        IsCycleAlert(cfg, events, i, f.cycles[k], sent[s + b + k]))
  {
    hide IsScanAlert, IsBlastAlert, IsCycleAlert, Usable, AllRight, ScanAlert, BlastAlert, CycleAlert, AlertsFor, Right;
    FindingsOf(cfg, table, events, findings, i);
    var f := findings[i];
    Places(cfg, events[i], f);
    if f.scan.Some? {
      ScanIsDescribed(cfg, table, events, findings, i);
    }
    if f.blast.Some? {
      BlastIsDescribed(cfg, table, events, findings, i);
    }
    var sent, s, b := AlertsFor(cfg, events[i], f), Scanned(f), Blasted(f);
    forall k | 0 <= k < |f.cycles|
      ensures IsCycleAlert(cfg, events, i, f.cycles[k], sent[s + b + k])
    {
      CycleIsDescribed(cfg, table, events, findings, i, k);
    }
  }

  lemma Places(cfg: Config, e: Event, f: Findings)
    ensures var sent, s, b := AlertsFor(cfg, e, f), Scanned(f), Blasted(f);
      && |sent| == s + b + |f.cycles|
      && (s == 1 ==> sent[0] == ScanAlert(cfg, e, f.scan.value.0, f.scan.value.1))
      && (b == 1 ==> sent[s] == BlastAlert(cfg, e, f.blast.value))
      && (forall k :: 0 <= k < |f.cycles| ==> sent[s + b + k] == CycleAlert(cfg, e, f.cycles[k]))
  {
    hide ScanAlert, BlastAlert, CycleAlert;
  }

  lemma FindingsOf(cfg: Config, table: Table, events: seq<Event>, findings: seq<Findings>, i: nat)
    requires Usable(cfg) && AllRight(cfg, table, events, findings) && i < |events|
    ensures |findings| == |events|
    ensures Right(cfg, LabelOf(table, events[i]), events, i, findings[i])
    ensures findings[i].blast.Some? ==> findings[i].scan.Some?
  {
    hide ScanIsRight, CyclesAreRight, LabelOf;
    assert Right(cfg, LabelOf(table, events[i]), events, i, findings[i]);
  }

  lemma SourceNames(env: Envelope, kind: string, ip: uint32, d: Details, ts: uint64, tags: seq<string>)
    ensures Names(Sealed(env, kind, ip, d, ts, tags), ip)
  {
    hide I.IpOf, I.ToString;
    I.ParseToString(I.PipelineReader, ip);
    I.ParseToString(I.ToolReader, ip);
  }

  lemma ScanIsDescribed(cfg: Config, table: Table, events: seq<Event>, findings: seq<Findings>, i: nat)
    requires Usable(cfg) && AllRight(cfg, table, events, findings) && i < |events| && findings[i].scan.Some?
    ensures IsScanAlert(cfg, table, events, i,
                        ScanAlert(cfg, events[i], findings[i].scan.value.0, findings[i].scan.value.1))
  {
    hide Names, BlastIsRight, CyclesAreRight, Usable, AllRight, T.Due, T.AlertAt, SeverityFor, IsLabel, LabelOf,
         I.ToString;
    FindingsOf(cfg, table, events, findings, i);
    var hit := findings[i].scan.value;
    SourceNames(cfg.envelope, "port_scan", events[i].srcIp, Frequency(hit.0, cfg.threshold, hit.1),
                events[i].timestampNs, ["port_scan"]);
    LabelIsLongest(table, events[i]);
  }

  lemma LabelIsLongest(table: Table, e: Event)
    ensures IsLabel(table, e.srcIp, LabelOf(table, e))
  {
    hide Longest, BestLabel;
    LongestMatch(table, e.srcIp, 32);
  }

  lemma BlastIsDescribed(cfg: Config, table: Table, events: seq<Event>, findings: seq<Findings>, i: nat)
    requires Usable(cfg) && AllRight(cfg, table, events, findings) && i < |events| && findings[i].blast.Some?
    ensures IsBlastAlert(cfg, events, i, BlastAlert(cfg, events[i], findings[i].blast.value))
  {
    hide Names, Usable, AllRight, SeverityFor, IsBall, GraphOf, I.ToString;
    FindingsOf(cfg, table, events, findings, i);
    BlastRadiusIsBall(cfg, table, events, findings, i);
    SourceNames(cfg.envelope, "blast_radius", events[i].srcIp, Reachable(cfg.maxHops, findings[i].blast.value),
                events[i].timestampNs, ["blast_radius", "lateral_movement"]);
  }

  lemma CycleIsDescribed(cfg: Config, table: Table, events: seq<Event>, findings: seq<Findings>, i: nat, k: nat)
    requires Usable(cfg) && AllRight(cfg, table, events, findings) && i < |events| && k < |findings[i].cycles|
    ensures var c := findings[i].cycles[k]; IsCycleAlert(cfg, events, i, c, CycleAlert(cfg, events[i], c))
  {
    hide Names, ScanIsRight, BlastIsRight, Usable, AllRight, SeverityFor, GraphOf, CyclesOf, HighWater, LabelOf,
         I.ToString, DetectsAt;
    FindingsOf(cfg, table, events, findings, i);
    var c := findings[i].cycles[k];
    assert Elements(c) in ComponentSets(findings[i].cycles);
    NotEmpty(GraphOf(events[..i + 1]), c);
    SourceNames(cfg.envelope, "scc_anomaly", c[0], Members(c), events[i].timestampNs,
                ["scc", "architecture_violation"]);
  }

  lemma NotEmpty(adj: Adjacency, c: Component)
    requires Elements(c) in CyclesOf(adj)
    ensures c != []
  {
    assert c == [] ==> Elements(c) == {};
  }

  function Total(findings: seq<Findings>): nat {
    if findings == [] then 0
    else
      var f := findings[|findings| - 1];
      Total(findings[..|findings| - 1]) + Scanned(f) + Blasted(f) + |f.cycles|
  }

  /** Everything sent in a run is an alert of one of its events, and nothing is lost or sent twice. */
  lemma SentIsFound(cfg: Config, events: seq<Event>, findings: seq<Findings>)
    requires |events| == |findings|
    ensures |AllAlerts(cfg, events, findings)| == Total(findings)
    ensures forall a :: a in AllAlerts(cfg, events, findings) <==>
        exists i :: 0 <= i < |events| && a in AlertsFor(cfg, events[i], findings[i])
  {
    SentIsCounted(cfg, events, findings);
    SentIsOfEvents(cfg, events, findings);
  }

  lemma {:induction false} SentIsCounted(cfg: Config, events: seq<Event>, findings: seq<Findings>)
    requires |events| == |findings|
    ensures |AllAlerts(cfg, events, findings)| == Total(findings)
  {
    hide AlertsFor;
    if events != [] {
      var n := |events| - 1;
      SentIsCounted(cfg, events[..n], findings[..n]);
      Places(cfg, events[n], findings[n]);
    }
  }

  lemma {:induction false} SentIsOfEvents(cfg: Config, events: seq<Event>, findings: seq<Findings>)
    requires |events| == |findings|
    ensures forall a :: a in AllAlerts(cfg, events, findings) <==>
        exists i :: 0 <= i < |events| && a in AlertsFor(cfg, events[i], findings[i])
  {
    hide AlertsFor;
    if events != [] {
      var n := |events| - 1;
      SentIsOfEvents(cfg, events[..n], findings[..n]);
      assert forall i :: 0 <= i < n ==> events[..n][i] == events[i] && findings[..n][i] == findings[i];
    }
  }

  // ---- The networks ----

  ghost predicate Configures(networks: seq<Network>, p: Prefix, i: int)
    requires NetworksFit(networks)
  {
    0 <= i < |networks| && FirstBits(networks[i].prefix, networks[i].len) == p
  }

  ghost predicate ConfiguresLast(networks: seq<Network>, p: Prefix, i: int)
    requires NetworksFit(networks)
  {
    Configures(networks, p, i) && forall j :: Configures(networks, p, j) ==> j <= i
  }

  /** The classifier holds exactly the configured prefixes, each with the label given last. */
  lemma {:induction false} NetworksStored(networks: seq<Network>, p: Prefix)
    requires NetworksFit(networks)
    ensures p in TableAfter(Inserts(networks)) <==> exists i :: Configures(networks, p, i)
    ensures forall i :: ConfiguresLast(networks, p, i) ==>
        p in TableAfter(Inserts(networks)) && TableAfter(Inserts(networks))[p] == networks[i].tag
  {
    if networks != [] {
      var n := |networks| - 1;
      var front := networks[..n];
      NetworksStored(front, p);
      assert Inserts(networks)[..n] == Inserts(front);
      forall i
        ensures Configures(networks, p, i) <==> Configures(front, p, i) || (i == n && Configures(networks, p, n))
      {
      }
      if !Configures(networks, p, n) {
        forall i
          ensures ConfiguresLast(networks, p, i) <==> ConfiguresLast(front, p, i)
        {
        }
      }
    }
  }
}
