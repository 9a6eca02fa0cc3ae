/** The aggregator's correlator: one incident per key, with suppression, upgrade and eviction. */
module Correlator {
  import opened Words
  import opened Sorting

  const TWO_TO_THE_63: int := 0x8000_0000_0000_0000

  type int64 = x: int | -TWO_TO_THE_63 <= x < TWO_TO_THE_63

  // Signed subtraction, which wraps.
  function Minus(a: int64, b: int64): int64 {
    var d := a - b;
    if d >= TWO_TO_THE_63 then d - TWO_TO_THE_64
    else if d < -TWO_TO_THE_63 then d + TWO_TO_THE_64
    else d
  }

  datatype CorrelationInfo = CorrelationInfo(
    incidentKey: string, firstSeenNs: int64, lastSeenNs: int64, occurrences: nat,
    nodesObserved: seq<string>, crossNode: bool, originalSeverity: string)

  datatype Alert = Alert(
    kind: string, source: string, timestampNs: int64, severity: string, nodeName: string,
    tags: seq<string>, correlation: Option<CorrelationInfo>)

  datatype Incident = Incident(
    key: string, firstSeenNs: int64, lastSeenNs: int64, count: nat, nodes: set<string>, originalSeverity: string)

  type Incidents = map<string, Incident>

  datatype Outcome = Outcome(out: Option<Alert>, emit: bool)

  predicate Malformed(a: Alert) {
    a.source == "" || a.kind == ""
  }

  function KeyOf(a: Alert): string {
    a.kind + "|" + a.source
  }

  // The alert's own time, or the clock's when it carries none.
  function TimeOf(a: Alert, clock: int64): int64 {
    if a.timestampNs == 0 then clock else a.timestampNs
  }

  function NodeOf(a: Alert): set<string> {
    if a.nodeName == "" then {} else {a.nodeName}
  }

  function UpgradeSeverity(s: string): string {
    if s == "low" then "medium"
    else if s == "medium" || s == "" then "high"
    else "critical"
  }

  function AppendUnique(s: seq<string>, v: string): seq<string> {
    if v in s then s else s + [v]
  }

  function Upgraded(a: Alert): Alert {
    a.(severity := UpgradeSeverity(a.severity), tags := AppendUnique(a.tags, "cross_node_attacker"))
  }

  ghost function SnapshotOf(st: Incident): CorrelationInfo {
    CorrelationInfo(st.key, st.firstSeenNs, st.lastSeenNs, st.count, Listing(st.nodes), |st.nodes| >= 2,
                    st.originalSeverity)
  }

  // ---- One alert, as a function ----

  predicate Expired(st: Incident, now: int64, window: int64) {
    Minus(now, st.lastSeenNs) > window
  }

  function Opened(a: Alert, now: int64): Incident {
    Incident(KeyOf(a), now, now, 1, NodeOf(a), a.severity)
  }

  function Joined(st: Incident, a: Alert, now: int64): Incident {
    st.(lastSeenNs := now, count := st.count + 1, nodes := st.nodes + NodeOf(a))
  }

  lemma OpenedStep(a: Alert, now: int64)
    ensures Opened(a, now) ==
      var st := Incident(KeyOf(a), now, now, 1, {}, a.severity);
      if a.nodeName != "" then st.(nodes := st.nodes + {a.nodeName}) else st
  {
  }

  lemma JoinedStep(st: Incident, a: Alert, now: int64)
    ensures Joined(st, a, now) ==
      var st' := st.(lastSeenNs := now, count := st.count + 1);
      if a.nodeName != "" then st'.(nodes := st'.nodes + {a.nodeName}) else st'
  {
    assert st.nodes + {} == st.nodes;
  }

  predicate StartsIncident(m: Incidents, a: Alert, now: int64, window: int64) {
    KeyOf(a) !in m || Expired(m[KeyOf(a)], now, window)
  }

  function NextIncident(m: Incidents, a: Alert, now: int64, window: int64): Incident {
    if StartsIncident(m, a, now, window) then Opened(a, now) else Joined(m[KeyOf(a)], a, now)
  }

  function NextIncidents(m: Incidents, a: Alert, clock: int64, window: int64): Incidents {
    if Malformed(a) then m else m[KeyOf(a) := NextIncident(m, a, TimeOf(a, clock), window)]
  }

  ghost function OutcomeOf(m: Incidents, a: Alert, clock: int64, window: int64): Outcome {
    if Malformed(a) then Outcome(Some(a), true)
    else
      var now := TimeOf(a, clock);
      var st := NextIncident(m, a, now, window);
      if StartsIncident(m, a, now, window) then
        Outcome(Some(a.(correlation := Some(SnapshotOf(st)))), true)
      else if |m[KeyOf(a)].nodes| < 2 && |st.nodes| >= 2 then
        Outcome(Some(Upgraded(a).(correlation := Some(SnapshotOf(st)))), true)
      else
        Outcome(None, false)
  }

  lemma WhenMalformed(m: Incidents, a: Alert, clock: int64, window: int64)
    requires Malformed(a)
    ensures NextIncidents(m, a, clock, window) == m && OutcomeOf(m, a, clock, window) == Outcome(Some(a), true)
  {
  }

  lemma WhenOpening(m: Incidents, a: Alert, clock: int64, window: int64)
    requires !Malformed(a) && StartsIncident(m, a, TimeOf(a, clock), window)
    ensures var st := Opened(a, TimeOf(a, clock));
      && NextIncidents(m, a, clock, window) == m[KeyOf(a) := st]
      && OutcomeOf(m, a, clock, window) == Outcome(Some(a.(correlation := Some(SnapshotOf(st)))), true)
  {
  }

  lemma WhenJoining(m: Incidents, a: Alert, clock: int64, window: int64)
    requires !Malformed(a) && !StartsIncident(m, a, TimeOf(a, clock), window)
    ensures var st := Joined(m[KeyOf(a)], a, TimeOf(a, clock));
      && NextIncidents(m, a, clock, window) == m[KeyOf(a) := st]
      && OutcomeOf(m, a, clock, window) ==
        if |m[KeyOf(a)].nodes| < 2 && |st.nodes| >= 2
        then Outcome(Some(Upgraded(a).(correlation := Some(SnapshotOf(st)))), true)
        else Outcome(None, false)
  {
  }

  function Evict(m: Incidents, now: int64, window: int64): Incidents {
    map k | k in m && !Expired(m[k], now, window) :: m[k]
  }

  // ---- The correlator ----

  class Correlator {
    const window: int64
    var incidents: Incidents

    constructor (window: int64)
      requires window > 0
      ensures this.window == window && incidents == map[]
    {
      this.window, incidents := window, map[];
    }

    // `clock` is what `NowNS` returned before the lock was taken; nothing orders it against the
    // clock values of other calls.
    method Process(a: Alert, clock: int64) returns (out: Option<Alert>, emit: bool)
      modifies this
      ensures incidents == NextIncidents(old(incidents), a, clock, window)
      ensures Outcome(out, emit) == OutcomeOf(old(incidents), a, clock, window)
    {
      hide Listing, Ascending, AtMost, SnapshotOf, AppendUnique, UpgradeSeverity, Joined, Opened,
           NextIncidents, OutcomeOf;
      if a.source == "" || a.kind == "" {
        WhenMalformed(incidents, a, clock, window);
        return Some(a), true;
      }
      var key := a.kind + "|" + a.source;
      var now := if a.timestampNs == 0 then clock else a.timestampNs;
      if key !in incidents || Minus(now, incidents[key].lastSeenNs) > window {
        var st := Incident(key, now, now, 1, {}, a.severity);
        if a.nodeName != "" {
          st := st.(nodes := st.nodes + {a.nodeName});
        }
        OpenedStep(a, now);
        WhenOpening(incidents, a, clock, window);
        incidents := incidents[key := st];
        var info := Snapshot(st, false);
        return Some(a.(correlation := Some(info))), true;
      }
      var st := incidents[key];
      var prevCrossNode := |st.nodes| >= 2;
      st := st.(lastSeenNs := now, count := st.count + 1);
      if a.nodeName != "" {
        st := st.(nodes := st.nodes + {a.nodeName});
      }
      JoinedStep(incidents[key], a, now);
      WhenJoining(incidents, a, clock, window);
      incidents := incidents[key := st];
      var nowCrossNode := |st.nodes| >= 2;
      if !prevCrossNode && nowCrossNode {
        var b := a.(severity := UpgradeSeverity(a.severity));
        b := b.(tags := AppendUnique(b.tags, "cross_node_attacker"));
        var info := Snapshot(st, true);
        return Some(b.(correlation := Some(info))), true;
      }
      return None, false;
    }

    method Snapshot(st: Incident, crossNode: bool) returns (info: CorrelationInfo)
      requires crossNode ==> |st.nodes| >= 2
      ensures info == SnapshotOf(st)
    {
      var nodes := SortedMembers(st.nodes);
      info := CorrelationInfo(st.key, st.firstSeenNs, st.lastSeenNs, st.count, nodes,
                              crossNode || |st.nodes| >= 2, st.originalSeverity);
    }

    // Deletes while iterating, in any order.
    method EvictExpired(clock: int64)
      modifies this
      ensures incidents == Evict(old(incidents), clock, window)
    {
      var rest := incidents.Keys;
      while rest != {}
        invariant rest <= incidents.Keys <= old(incidents).Keys
        invariant forall k :: k in incidents ==> incidents[k] == old(incidents)[k]
        invariant forall k :: k in old(incidents) && k !in rest ==>
            (k in incidents <==> !Expired(old(incidents)[k], clock, window))
        decreases rest
      {
        var k :| k in rest;
        rest := rest - {k};
        if Minus(clock, incidents[k].lastSeenNs) > window {
          incidents := incidents - {k};
        }
      }
    }
  }
}
