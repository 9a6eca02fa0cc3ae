/** What the correlator's keys, times and emitted alerts are, in plain terms. */
module CorrelatorLaws {
  import opened Words
  import opened Sets
  import opened Sorting
  import opened Correlator
  import opened CorrelatorTheorems

  // ---- Keys ----

  ghost predicate NoBar(s: string) {
    forall i :: 0 <= i < |s| ==> s[i] != '|'
  }

  // The key of `a` can also be cut at a later bar, which gives `b`.
  ghost predicate Recut(a: Alert, b: Alert) {
    && |a.kind| < |b.kind| && b.kind[..|a.kind| + 1] == a.kind + "|"
    && a.source == b.kind[|a.kind| + 1..] + "|" + b.source
  }

  /**
   Two alerts share a key exactly when they have the same kind and source, or when the one's key cut
   at another bar gives the other.
   */
  lemma SameKey(a: Alert, b: Alert)
    ensures KeyOf(a) == KeyOf(b) <==> (a.kind == b.kind && a.source == b.source) || Recut(a, b) || Recut(b, a)
  {
    if KeyOf(a) == KeyOf(b) {
      if |a.kind| < |b.kind| {
        CutLater(a, b);
      } else if |b.kind| < |a.kind| {
        CutLater(b, a);
      } else {
        Parts(a);
        Parts(b);
      }
    }
    if Recut(a, b) {
      Rejoined(a, b);
    }
    if Recut(b, a) {
      Rejoined(b, a);
    }
  }

  lemma Parts(a: Alert)
    ensures var k := KeyOf(a);
      && |k| == |a.kind| + 1 + |a.source| && k[..|a.kind|] == a.kind && k[|a.kind|] == '|'
      && k[|a.kind| + 1..] == a.source
  {
  }

  lemma CutLater(a: Alert, b: Alert)
    requires KeyOf(a) == KeyOf(b) && |a.kind| < |b.kind|
    ensures Recut(a, b)
  {
    var k, n := KeyOf(a), |a.kind|;
    Parts(a);
    Parts(b);
    assert b.kind == k[..|b.kind|];
    assert b.kind[..n + 1] == k[..n + 1] == a.kind + "|";
    assert b.kind[n + 1..] == k[n + 1..|b.kind|];
    assert k[n + 1..] == k[n + 1..|b.kind|] + k[|b.kind|..];
    assert k[|b.kind|..] == "|" + b.source;
  }

  lemma Rejoined(a: Alert, b: Alert)
    requires Recut(a, b)
    ensures KeyOf(a) == KeyOf(b)
  {
    var n := |a.kind|;
    assert b.kind == b.kind[..n + 1] + b.kind[n + 1..];
    assert KeyOf(a) == a.kind + "|" + (b.kind[n + 1..] + "|" + b.source);
  }

  /** Between kinds without a bar, keys separate kinds and sources. */
  lemma KeysSeparate(a: Alert, b: Alert)
    requires NoBar(a.kind) && NoBar(b.kind)
    ensures KeyOf(a) == KeyOf(b) <==> a.kind == b.kind && a.source == b.source
  {
    hide KeyOf;
    SameKey(a, b);
    RecutHasBar(a, b);
    RecutHasBar(b, a);
  }

  lemma RecutHasBar(a: Alert, b: Alert)
    ensures Recut(a, b) ==> !NoBar(b.kind)
  {
    if Recut(a, b) {
      assert b.kind[..|a.kind| + 1][|a.kind|] == '|';
    }
  }

  /** With bars they need not. */
  lemma KeysCollide(a: Alert, b: Alert)
    requires a.kind == "scan" && a.source == "x|y" && b.kind == "scan|x" && b.source == "y"
    ensures KeyOf(a) == KeyOf(b) && a.kind != b.kind
  {
    assert KeyOf(a) == "scan|x|y" == KeyOf(b);
    assert |a.kind| != |b.kind|;
  }

  // ---- Other incidents do not interfere ----

  ghost predicate KindsBarFree(events: seq<Event>) {
    forall i :: 0 <= i < |events| && events[i].Arrive? ==> NoBar(events[i].a.kind)
  }

  predicate IsOwn(e: Event, kind: string, source: string) {
    e.Tick? || (e.a.kind == kind && e.a.source == source)
  }

  // The evictions, and the alerts of one kind and source.
  function Own(events: seq<Event>, kind: string, source: string): seq<Event> {
    if events == [] then []
    else
      var e := events[|events| - 1];
      Own(events[..|events| - 1], kind, source) + if IsOwn(e, kind, source) then [e] else []
  }

  ghost predicate Agree(m: Incidents, own: Incidents, key: string) {
    (key in m <==> key in own) && (key in m ==> m[key] == own[key])
  }

  lemma OwnStep(m: Incidents, own: Incidents, e: Event, window: int64, a: Alert)
    requires e.Arrive? && Agree(m, own, KeyOf(a)) && NoBar(a.kind) && NoBar(e.a.kind) && !Malformed(a)
    ensures if IsOwn(e, a.kind, a.source)
      then Agree(NextIncidents(m, e.a, e.clock, window), NextIncidents(own, e.a, e.clock, window), KeyOf(a))
      else Agree(NextIncidents(m, e.a, e.clock, window), own, KeyOf(a))
  {
    hide KeyOf;
    KeysSeparate(a, e.a);
  }

  lemma {:induction false} OwnRun(events: seq<Event>, window: int64, evicting: bool, a: Alert)
    requires KindsBarFree(events) && NoBar(a.kind) && !Malformed(a)
    ensures Agree(After(map[], events, window, evicting),
                  After(map[], Own(events, a.kind, a.source), window, evicting), KeyOf(a))
  {
    hide KeyOf, NextIncidents, NoBar;
    if events != [] {
      var n := |events| - 1;
      var front, e := events[..n], events[n];
      var own := Own(front, a.kind, a.source);
      OwnRun(front, window, evicting, a);
      assert (own + [e])[..|own|] == own && own + [] == own;
      var m, m' := After(map[], front, window, evicting), After(map[], own, window, evicting);
      if e.Arrive? {
        OwnStep(m, m', e, window, a);
      } else {
        assert Agree(Evict(m, e.clock, window), Evict(m', e.clock, window), KeyOf(a));
      }
    }
  }

  lemma AgreeAnswer(m: Incidents, own: Incidents, a: Alert, clock: int64, window: int64)
    requires Agree(m, own, KeyOf(a))
    ensures OutcomeOf(m, a, clock, window) == OutcomeOf(own, a, clock, window)
  {
    hide KeyOf, SnapshotOf;
  }

  /**
   Between kinds without a bar, the answer to an alert is the one in the run that keeps only the
   evictions and the alerts of its own kind and source.
   */
  lemma NonInterference(events: seq<Event>, window: int64, evicting: bool)
    requires events != [] && events[|events| - 1].Arrive? && !Malformed(events[|events| - 1].a)
    requires KindsBarFree(events)
    ensures var a := events[|events| - 1].a;
      var own := Own(events, a.kind, a.source);
      && own != [] && own[|own| - 1] == events[|events| - 1]
      && LastOutcome(own, window, evicting) == LastOutcome(events, window, evicting)
  {
    hide LastOutcome, OutcomeOf, After, KindsBarFree, Malformed;
    var n := |events| - 1;
    var front, e := events[..n], events[n];
    var own := Own(front, e.a.kind, e.a.source);
    assert (own + [e])[..|own|] == own;
    BarFreeFront(events);
    OwnRun(front, window, evicting, e.a);
    AgreeAnswer(After(map[], front, window, evicting), After(map[], own, window, evicting), e.a, e.clock, window);
    LastOutcomeIs(events, window, evicting);
    LastOutcomeIs(own + [e], window, evicting);
  }

  lemma BarFreeFront(events: seq<Event>)
    requires events != [] && KindsBarFree(events)
    ensures KindsBarFree(events[..|events| - 1])
    ensures events[|events| - 1].Arrive? ==> NoBar(events[|events| - 1].a.kind)
  {
  }

  // ---- Times ----

  /** Subtraction of times is exact when the difference fits, and correct up to wrap-around always. */
  lemma Difference(a: int64, b: int64)
    ensures -0x8000_0000_0000_0000 <= a - b < 0x8000_0000_0000_0000 ==> Minus(a, b) == a - b
    ensures (Minus(a, b) - (a - b)) % 0x1_0000_0000_0000_0000 == 0
  {
  }

  /**
   An alert joins its key's incident when it comes no more than a window after the incident's last
   alert, and opens a new one when it comes later, in time that does not go below zero.
   */
  lemma JoinsWithinWindow(events: seq<Event>, window: int64, evicting: bool)
    requires events != [] && events[|events| - 1].Arrive? && !Malformed(events[|events| - 1].a)
    ensures var e := events[|events| - 1];
      var g := Generation(events[..|events| - 1], window, evicting, KeyOf(e.a));
      var t := if e.a.timestampNs != 0 then e.a.timestampNs else e.clock;
      var joins := g != [] && t <= g[|g| - 1].now + window;
      g == [] || (0 <= g[|g| - 1].now && 0 <= t) ==>
        Generation(events, window, evicting, KeyOf(e.a)) == (if joins then g else []) + [Arrival(e.a, t)]
  {
    hide KeyOf;
    var x := Arrival(events[|events| - 1].a, EventTime(events[|events| - 1]));
    assert [] + [x] == [x];
  }

  /** An eviction keeps exactly the incidents whose last alert is no more than a window old. */
  lemma EvictionKeeps(m: Incidents, now: int64, window: int64, k: string)
    requires k in m && 0 <= now && 0 <= m[k].lastSeenNs
    ensures k in Evict(m, now, window) <==> now <= m[k].lastSeenNs + window
    ensures k in Evict(m, now, window) ==> Evict(m, now, window)[k] == m[k]
    ensures Evict(m, now, window).Keys <= m.Keys
  {
  }

  /**
   Alerts with other keys, malformed alerts and, unless evictions count, ticks leave a key's current
   incident alone; an eviction ends it exactly when its last alert is more than a window old.
   */
  lemma OthersLeaveAlone(events: seq<Event>, window: int64, evicting: bool, key: string)
    requires events != []
    ensures var e, front := events[|events| - 1], events[..|events| - 1];
      var g, g' := Generation(front, window, evicting, key), Generation(events, window, evicting, key);
      && (e.Arrive? && (Malformed(e.a) || KeyOf(e.a) != key) ==> g' == g)
      && (e.Tick? && !evicting ==> g' == g)
      && (e.Tick? && evicting && g != [] && 0 <= e.clock && 0 <= g[|g| - 1].now ==>
        g' == if e.clock <= g[|g| - 1].now + window then g else [])
  {
    hide KeyOf;
  }

  /** The nodes of an incident are the node names of its alerts, except empty ones. */
  lemma {:induction false} NodesReported(g: seq<Arrival>, n: string)
    ensures n in Nodes(g) <==> n != "" && exists k :: 0 <= k < |g| && g[k].a.nodeName == n
  {
    if g != [] {
      NodesReported(g[..|g| - 1], n);
    }
  }

  // ---- What is passed on ----

  // The next severity after `s`; an alert without one counts as medium.
  predicate IsNextAfter(t: string, s: string) {
    if s == "low" then t == "medium" else if s == "medium" || s == "" then t == "high" else t == "critical"
  }

  /**
   What is passed on is the alert itself with the history of its incident: key, times of the first and
   the last alert, number of alerts, the nodes in ascending order and whether there are two or more.
   The first of an incident keeps its severity and tags; the one that brings the second node gets the
   next severity and the tag of a cross-node attacker, once.
   */
  lemma PassedOn(events: seq<Event>, window: int64, evicting: bool)
    requires events != [] && events[|events| - 1].Arrive? && !Malformed(events[|events| - 1].a)
    requires LastOutcome(events, window, evicting).emit
    ensures var e := events[|events| - 1];
      var g := Generation(events, window, evicting, KeyOf(e.a));
      var out := LastOutcome(events, window, evicting).out;
      && g != [] && out.Some? && out.value.correlation.Some?
      && IsHistory(out.value.correlation.value, e, g)
      && (if |g| == 1 then out.value.severity == e.a.severity && out.value.tags == e.a.tags
          else Upgrades(out.value, e.a) && |Nodes(g)| >= 2)
      && SameOtherwise(out.value, e.a)
  {
    hide LastOutcome, Generation, Nodes, Listing, UpgradeSeverity, AppendUnique;
    OutcomeByGeneration(events, window, evicting);
    var a := events[|events| - 1].a;
    GenerationKey(events, window, evicting, KeyOf(a));
    UpgradedWords(a.severity);
    UpgradedTags(a.tags);
    WholeGeneration(Generation(events, window, evicting, KeyOf(a)));
  }

  ghost predicate IsHistory(c: CorrelationInfo, e: Event, g: seq<Arrival>)
    requires e.Arrive? && g != []
  {
    && c.incidentKey == e.a.kind + "|" + e.a.source && c.occurrences == |g|
    && c.firstSeenNs == g[0].now
    && c.lastSeenNs == (if e.a.timestampNs != 0 then e.a.timestampNs else e.clock)
    && c.originalSeverity == g[0].a.severity
    && Ascending(c.nodesObserved) && Elements(c.nodesObserved) == Nodes(g) && (c.crossNode <==> |Nodes(g)| >= 2)
  }

  ghost predicate Upgrades(out: Alert, a: Alert) {
    && IsNextAfter(out.severity, a.severity)
    && out.tags == if "cross_node_attacker" in a.tags then a.tags else a.tags + ["cross_node_attacker"]
  }

  predicate SameOtherwise(out: Alert, a: Alert) {
    && out.kind == a.kind && out.source == a.source && out.timestampNs == a.timestampNs && out.nodeName == a.nodeName
  }

  lemma UpgradedWords(s: string)
    ensures IsNextAfter(UpgradeSeverity(s), s)
  {
  }

  lemma UpgradedTags(tags: seq<string>)
    ensures AppendUnique(tags, "cross_node_attacker") ==
      if "cross_node_attacker" in tags then tags else tags + ["cross_node_attacker"]
  {
  }

  lemma WholeGeneration(g: seq<Arrival>)
    ensures g[..|g|] == g
  {
  }

  lemma GenerationKey(events: seq<Event>, window: int64, evicting: bool, key: string)
    ensures var g := Generation(events, window, evicting, key); g != [] ==> KeyOf(g[0].a) == key
  {
    IncidentIsGeneration(events, window, evicting, key);
  }

  // The event that brought an arrival.
  ghost predicate Brings(events: seq<Event>, x: Arrival, i: int) {
    && 0 <= i < |events| && events[i].Arrive? && events[i].a == x.a
    && x.now == if x.a.timestampNs != 0 then x.a.timestampNs else events[i].clock
  }

  /** Every alert of an incident came with an event, at its own time or, lacking one, the clock's. */
  lemma {:induction false} ArrivalTimes(events: seq<Event>, window: int64, evicting: bool, key: string, x: Arrival)
    requires x in Generation(events, window, evicting, key)
    ensures exists i :: Brings(events, x, i)
  {
    hide KeyOf;
    var n := |events| - 1;
    if x in Generation(events[..n], window, evicting, key) {
      ArrivalTimes(events[..n], window, evicting, key, x);
      var i :| Brings(events[..n], x, i);
      assert Brings(events, x, i);
    } else {
      assert Brings(events, x, n);
    }
  }

  /** A malformed alert is passed on untouched and leaves no trace. */
  lemma MalformedPassesThrough(m: Incidents, a: Alert, clock: int64, window: int64)
    requires a.source == "" || a.kind == ""
    ensures NextIncidents(m, a, clock, window) == m && OutcomeOf(m, a, clock, window) == Outcome(Some(a), true)
  {
  }

  // ---- Sorted names ----

  // The first place where two strings differ.
  ghost predicate DifferAt(a: string, b: string, k: int) {
    0 <= k < |a| && k < |b| && a[..k] == b[..k] && a[k] != b[k]
  }

  lemma AgreeBefore(a: string, b: string, k: int)
    requires DifferAt(a, b, k)
    ensures k > 0 ==> a[0] == b[0]
  {
    if k > 0 {
      assert a[..k][0] == b[..k][0];
    }
  }

  /** Names are in lexicographic order: a prefix comes first, else the first difference decides. */
  lemma {:induction false} Lexicographic(a: string, b: string)
    ensures a <= b ==> AtMost(a, b)
    ensures forall k :: DifferAt(a, b, k) ==> (AtMost(a, b) <==> a[k] < b[k])
  {
    if a != "" && b != "" && a[0] == b[0] {
      Lexicographic(a[1..], b[1..]);
      assert a <= b ==> a[1..] <= b[1..];
      forall k | DifferAt(a, b, k)
        ensures DifferAt(a[1..], b[1..], k - 1)
      {
        assert a[1..][..k - 1] == a[..k][1..] && b[1..][..k - 1] == b[..k][1..];
      }
    } else {
      forall k | DifferAt(a, b, k)
        ensures k == 0
      {
        AgreeBefore(a, b, k);
      }
    }
  }
}
