/** What the correlator answers over whole runs, with evictions between the alerts. */
module CorrelatorTheorems {
  import opened Words
  import opened Sets
  import opened Sorting
  import opened Correlator

  // ---- Runs with evictions in between ----

  datatype Event =
    | Arrive(a: Alert, clock: int64)
    | Tick(clock: int64)

  function EventTime(e: Event): int64 {
    match e
    case Arrive(a, clock) => TimeOf(a, clock)
    case Tick(clock) => clock
  }

  // The incidents after the events, with or without the evictions taking place.
  ghost function After(m: Incidents, events: seq<Event>, window: int64, evicting: bool): Incidents {
    if events == [] then m
    else
      var before := After(m, events[..|events| - 1], window, evicting);
      match events[|events| - 1]
      case Arrive(a, clock) => NextIncidents(before, a, clock, window)
      case Tick(clock) => if evicting then Evict(before, clock, window) else before
  }

  ghost function Outcomes(events: seq<Event>, window: int64, evicting: bool): seq<Outcome> {
    if events == [] then []
    else
      var front := events[..|events| - 1];
      var before := After(map[], front, window, evicting);
      Outcomes(front, window, evicting) +
      match events[|events| - 1]
      case Arrive(a, clock) => [OutcomeOf(before, a, clock, window)]
      case Tick(_) => []
  }

  // Any alerts and evictions, in the order in which they take the lock.
  method Replay(window: int64, events: seq<Event>) returns (c: Correlator, outcomes: seq<Outcome>)
    requires window > 0
    ensures fresh(c) && c.window == window && c.incidents == After(map[], events, window, true)
    ensures outcomes == Outcomes(events, window, true)
  {
    hide OutcomeOf, NextIncidents, Evict;
    c := new Correlator(window);
    outcomes := [];
    for i := 0 to |events|
      invariant fresh(c) && c.window == window && c.incidents == After(map[], events[..i], window, true)
      invariant outcomes == Outcomes(events[..i], window, true)
    {
      hide OutcomeOf, NextIncidents, Evict;
      assert events[..i + 1][..i] == events[..i];
      match events[i]
      case Arrive(a, clock) =>
        var out, emit := c.Process(a, clock);
        outcomes := outcomes + [Outcome(out, emit)];
      case Tick(clock) =>
        c.EvictExpired(clock);
        assert outcomes + [] == outcomes;
    }
    assert events[..|events|] == events;
  }

  // The times of the events, in the order in which they take the lock, never go back.
  ghost predicate OneClock(events: seq<Event>) {
    && (forall i :: 0 <= i < |events| ==> 0 <= EventTime(events[i]))
    && (forall i, j :: 0 <= i < j < |events| ==> EventTime(events[i]) <= EventTime(events[j]))
  }

  // ---- Exactly when evictions can be seen ----

  ghost predicate Concerns(e: Event, key: string) {
    e.Arrive? && !Malformed(e.a) && KeyOf(e.a) == key
  }

  // Event `p` is the last alert of `key`.
  ghost predicate LastOf(events: seq<Event>, key: string, p: int) {
    && 0 <= p < |events| && Concerns(events[p], key)
    && forall q :: p < q < |events| ==> !Concerns(events[q], key)
  }

  ghost predicate TickPast(events: seq<Event>, window: int64, p: int, j: int) {
    0 <= p < j < |events| && events[j].Tick? && Minus(events[j].clock, EventTime(events[p])) > window
  }

  // An eviction since event `p` found its time past the window.
  ghost predicate Ticked(events: seq<Event>, window: int64, p: int) {
    exists j :: TickPast(events, window, p, j)
  }

  // Event `i` is an alert within the window of the last one of its key, event `p`, although an
  // eviction between the two was past that window.
  ghost predicate LateAt(events: seq<Event>, window: int64, p: int, i: int) {
    && 0 <= p < i < |events| && events[i].Arrive? && !Malformed(events[i].a)
    && LastOf(events[..i], KeyOf(events[i].a), p) && Ticked(events[..i], window, p)
    && Minus(EventTime(events[i]), EventTime(events[p])) <= window
  }

  ghost predicate Late(events: seq<Event>, window: int64, i: int) {
    exists p :: LateAt(events, window, p, i)
  }

  // No alert comes late. This is about the list of events alone.
  ghost predicate NoLate(events: seq<Event>, window: int64) {
    forall i :: 0 <= i < |events| ==> !Late(events, window, i)
  }

  // One answer differs exactly when the alert's incident is missing and not expired.
  lemma AnswerSeesEviction(m: Incidents, full: Incidents, a: Alert, clock: int64, window: int64)
    requires !Malformed(a) && (KeyOf(a) in full ==> full[KeyOf(a)].count >= 1)
    requires KeyOf(a) in m ==> KeyOf(a) in full && m[KeyOf(a)] == full[KeyOf(a)]
    ensures OutcomeOf(m, a, clock, window) == OutcomeOf(full, a, clock, window)
      <==> !(KeyOf(a) in full && KeyOf(a) !in m && !Expired(full[KeyOf(a)], TimeOf(a, clock), window))
  {
    hide Listing;
    var key, now := KeyOf(a), TimeOf(a, clock);
    if key in full && key !in m && !Expired(full[key], now, window) {
      assert SnapshotOf(Opened(a, now)).occurrences == 1;
      assert SnapshotOf(Joined(full[key], a, now)).occurrences >= 2;
    }
  }

  // The incident of `key` with evictions is the one without, unless it was evicted since.
  ghost predicate TracksKey(events: seq<Event>, window: int64, m: Incidents, full: Incidents, key: string, p: int)
    requires key in full
  {
    && LastOf(events, key, p) && full[key].lastSeenNs == EventTime(events[p]) && full[key].count >= 1
    && (key in m <==> !Ticked(events, window, p)) && (key in m ==> m[key] == full[key])
  }

  ghost predicate Tracks(events: seq<Event>, window: int64, m: Incidents, full: Incidents) {
    && (forall key :: key in full ==> exists p :: TracksKey(events, window, m, full, key, p))
    && (forall key, q :: 0 <= q < |events| && Concerns(events[q], key) ==> key in full)
    && m.Keys <= full.Keys
  }

  lemma LastIsUnique(events: seq<Event>, key: string, p: int, q: int)
    requires LastOf(events, key, p) && LastOf(events, key, q)
    ensures p == q
  {
  }

  // Another event: whether there was an eviction past the window since event `p`.
  lemma TickedStep(events: seq<Event>, e: Event, window: int64, p: int)
    requires 0 <= p < |events|
    ensures Ticked(events + [e], window, p) <==>
      Ticked(events, window, p) || (e.Tick? && Minus(e.clock, EventTime(events[p])) > window)
    ensures !Ticked(events + [e], window, |events|)
  {
    var all := events + [e];
    if Ticked(events, window, p) {
      var j :| TickPast(events, window, p, j);
      assert TickPast(all, window, p, j);
    }
    if e.Tick? && Minus(e.clock, EventTime(events[p])) > window {
      assert TickPast(all, window, p, |events|);
    }
    if Ticked(all, window, p) {
      var j :| TickPast(all, window, p, j);
      assert j < |events| ==> TickPast(events, window, p, j);
    }
  }

  lemma TrackTick(events: seq<Event>, clock: int64, window: int64, m: Incidents, full: Incidents)
    requires Tracks(events, window, m, full)
    ensures Tracks(events + [Tick(clock)], window, Evict(m, clock, window), full)
  {
    hide Ticked, Minus;
    var all, m' := events + [Tick(clock)], Evict(m, clock, window);
    forall key | key in full
      ensures exists p :: TracksKey(all, window, m', full, key, p)
    {
      var p :| TracksKey(events, window, m, full, key, p);
      TickedStep(events, Tick(clock), window, p);
      assert TracksKey(all, window, m', full, key, p);
    }
  }

  // An alert that does not come late keeps the two in step.
  lemma TrackArrival(events: seq<Event>, a: Alert, clock: int64, window: int64, m: Incidents, full: Incidents)
    requires Tracks(events, window, m, full)
    requires !Malformed(a) ==> OutcomeOf(m, a, clock, window) == OutcomeOf(full, a, clock, window)
    ensures Tracks(events + [Arrive(a, clock)], window,
                   NextIncidents(m, a, clock, window), NextIncidents(full, a, clock, window))
  {
    hide Ticked, Minus, OutcomeOf, KeyOf, TracksKey, NextIncident;
    var all := events + [Arrive(a, clock)];
    var m', full' := NextIncidents(m, a, clock, window), NextIncidents(full, a, clock, window);
    forall key | key in full'
      ensures exists p :: TracksKey(all, window, m', full', key, p)
    {
      if !Malformed(a) && key == KeyOf(a) {
        TrackOwn(events, a, clock, window, m, full);
      } else {
        TrackOther(events, a, clock, window, m, full, key);
      }
    }
  }

  // The alert's own key is as new.
  lemma TrackOwn(events: seq<Event>, a: Alert, clock: int64, window: int64, m: Incidents, full: Incidents)
    requires Tracks(events, window, m, full) && !Malformed(a)
    requires OutcomeOf(m, a, clock, window) == OutcomeOf(full, a, clock, window)
    ensures TracksKey(events + [Arrive(a, clock)], window, NextIncidents(m, a, clock, window),
                      NextIncidents(full, a, clock, window), KeyOf(a), |events|)
  {
    hide Ticked, Minus, OutcomeOf, KeyOf, Tracks, NextIncident;
    SameNext(events, a, clock, window, m, full);
    if events == [] {
      NothingTicked(events + [Arrive(a, clock)], window);
    } else {
      TickedStep(events, Arrive(a, clock), window, 0);
    }
  }

  // Other keys are as before.
  lemma TrackOther(events: seq<Event>, a: Alert, clock: int64, window: int64, m: Incidents, full: Incidents,
                   key: string)
    requires Tracks(events, window, m, full) && key in full && (Malformed(a) || key != KeyOf(a))
    ensures exists p :: TracksKey(events + [Arrive(a, clock)], window, NextIncidents(m, a, clock, window),
                                  NextIncidents(full, a, clock, window), key, p)
  {
    hide Ticked, Minus, KeyOf, NextIncident;
    var p :| TracksKey(events, window, m, full, key, p);
    TickedStep(events, Arrive(a, clock), window, p);
    assert TracksKey(events + [Arrive(a, clock)], window, NextIncidents(m, a, clock, window),
                     NextIncidents(full, a, clock, window), key, p);
  }

  lemma NothingTicked(events: seq<Event>, window: int64)
    requires |events| == 1
    ensures !Ticked(events, window, 0)
  {
  }

  // Equal answers leave equal incidents.
  lemma SameNext(events: seq<Event>, a: Alert, clock: int64, window: int64, m: Incidents, full: Incidents)
    requires Tracks(events, window, m, full) && !Malformed(a)
    requires OutcomeOf(m, a, clock, window) == OutcomeOf(full, a, clock, window)
    ensures var now := TimeOf(a, clock);
      NextIncident(m, a, now, window) == NextIncident(full, a, now, window)
    ensures NextIncident(full, a, TimeOf(a, clock), window).count >= 1
    ensures NextIncident(full, a, TimeOf(a, clock), window).lastSeenNs == TimeOf(a, clock)
  {
    hide OutcomeOf, Ticked, KeyOf;
    TracksAnswer(events, window, m, full, KeyOf(a));
    AnswerSeesEviction(m, full, a, clock, window);
  }

  lemma TracksAnswer(events: seq<Event>, window: int64, m: Incidents, full: Incidents, key: string)
    requires Tracks(events, window, m, full)
    ensures key in full ==> full[key].count >= 1
    ensures key in m ==> key in full && m[key] == full[key]
  {
    if key in full {
      var p :| TracksKey(events, window, m, full, key, p);
    }
  }

  // The next alert is answered differently exactly when it comes late.
  lemma LateIsSeen(events: seq<Event>, a: Alert, clock: int64, window: int64, m: Incidents, full: Incidents)
    requires Tracks(events, window, m, full) && !Malformed(a)
    ensures OutcomeOf(m, a, clock, window) == OutcomeOf(full, a, clock, window)
      <==> !Late(events + [Arrive(a, clock)], window, |events|)
  {
    hide OutcomeOf, Ticked, KeyOf, Minus;
    var all, key := events + [Arrive(a, clock)], KeyOf(a);
    assert all[..|events|] == events;
    TracksAnswer(events, window, m, full, key);
    AnswerSeesEviction(m, full, a, clock, window);
    if key in full {
      var p :| TracksKey(events, window, m, full, key, p);
      assert key !in m && !Expired(full[key], TimeOf(a, clock), window) <==> LateAt(all, window, p, |events|);
      forall q | LateAt(all, window, q, |events|)
        ensures q == p
      {
        LastIsUnique(events, key, p, q);
      }
    } else {
      forall q
        ensures !LateAt(all, window, q, |events|)
      {
      }
    }
  }

  // Being late is decided by the events up to the alert.
  lemma LateBefore(events: seq<Event>, n: nat, window: int64, i: nat)
    requires i < n <= |events|
    ensures Late(events[..n], window, i) <==> Late(events, window, i)
  {
    assert events[..n][..i] == events[..i];
    forall p
      ensures LateAt(events[..n], window, p, i) <==> LateAt(events, window, p, i)
    {
    }
  }

  lemma NoLateStep(events: seq<Event>, window: int64)
    requires events != []
    ensures NoLate(events, window) <==>
      NoLate(events[..|events| - 1], window) && !Late(events, window, |events| - 1)
  {
    hide Late;
    var n := |events| - 1;
    forall i | 0 <= i < n
      ensures Late(events[..n], window, i) <==> Late(events, window, i)
    {
      LateBefore(events, n, window, i);
    }
  }

  lemma {:induction false} Visibility(events: seq<Event>, window: int64)
    ensures |Outcomes(events, window, true)| == |Outcomes(events, window, false)|
    ensures Outcomes(events, window, true) == Outcomes(events, window, false) <==> NoLate(events, window)
    ensures NoLate(events, window) ==>
      Tracks(events, window, After(map[], events, window, true), After(map[], events, window, false))
  {
    hide Late, Tracks, NextIncidents, OutcomeOf, Evict, NoLate;
    if events == [] {
      NothingLate(window);
    } else {
      var n := |events| - 1;
      var front, e := events[..n], events[n];
      assert events == front + [e];
      var m, full := After(map[], front, window, true), After(map[], front, window, false);
      Visibility(front, window);
      NoLateStep(events, window);
      match e
      case Tick(clock) =>
        TicksAreNotLate(events, window);
        assert Outcomes(front, window, true) + [] == Outcomes(front, window, true);
        assert Outcomes(front, window, false) + [] == Outcomes(front, window, false);
        if NoLate(front, window) {
          TrackTick(front, clock, window, m, full);
        }
      case Arrive(a, clock) =>
        if NoLate(front, window) {
          VisibleStep(front, a, clock, window, m, full);
        }
        Appended(Outcomes(front, window, true), Outcomes(front, window, false),
                 OutcomeOf(m, a, clock, window), OutcomeOf(full, a, clock, window));
    }
  }

  lemma NothingLate(window: int64)
    ensures NoLate([], window) && Tracks([], window, map[], map[])
  {
  }

  lemma TicksAreNotLate(events: seq<Event>, window: int64)
    requires events != [] && events[|events| - 1].Tick?
    ensures !Late(events, window, |events| - 1)
  {
  }

  lemma VisibleStep(front: seq<Event>, a: Alert, clock: int64, window: int64, m: Incidents, full: Incidents)
    requires Tracks(front, window, m, full)
    ensures var all := front + [Arrive(a, clock)];
      var same := !Late(all, window, |front|);
      && (OutcomeOf(m, a, clock, window) == OutcomeOf(full, a, clock, window) <==> same)
      && (same ==> Tracks(all, window, NextIncidents(m, a, clock, window), NextIncidents(full, a, clock, window)))
  {
    hide Late, Tracks, NextIncidents;
    if Malformed(a) {
      WhenMalformed(m, a, clock, window);
      WhenMalformed(full, a, clock, window);
      MalformedIsNotLate(front, a, clock, window);
      TrackArrival(front, a, clock, window, m, full);
    } else {
      LateIsSeen(front, a, clock, window, m, full);
      if OutcomeOf(m, a, clock, window) == OutcomeOf(full, a, clock, window) {
        TrackArrival(front, a, clock, window, m, full);
      }
    }
  }

  lemma MalformedIsNotLate(front: seq<Event>, a: Alert, clock: int64, window: int64)
    requires Malformed(a)
    ensures !Late(front + [Arrive(a, clock)], window, |front|)
  {
  }

  lemma Appended(s: seq<Outcome>, t: seq<Outcome>, x: Outcome, y: Outcome)
    requires |s| == |t|
    ensures s + [x] == t + [y] <==> s == t && x == y
  {
    if s + [x] == t + [y] {
      assert s == (s + [x])[..|s|] && t == (t + [y])[..|t|];
      assert (s + [x])[|s|] == x && (t + [y])[|t|] == y;
    }
  }

  /**
   Evictions change no answer of a run, whenever they happen and whatever times the events carry, if
   and only if no alert comes late.
   */
  lemma EvictionVisibleToLateAlertsOnly(events: seq<Event>, window: int64)
    ensures Outcomes(events, window, true) == Outcomes(events, window, false) <==> NoLate(events, window)
  {
    Visibility(events, window);
  }

  lemma OrderedIsNotLate(events: seq<Event>, window: int64)
    requires OneClock(events)
    ensures NoLate(events, window)
  {
    forall p, j, i | 0 <= p < j < i < |events| && Minus(EventTime(events[j]), EventTime(events[p])) > window
      ensures Minus(EventTime(events[i]), EventTime(events[p])) > window
    {
      assert EventTime(events[p]) <= EventTime(events[j]) <= EventTime(events[i]);
    }
    forall i, p | 0 <= i < |events| && Ticked(events[..i], window, p)
      ensures !LateAt(events, window, p, i)
    {
      var j :| TickPast(events[..i], window, p, j);
      assert events[..i][j] == events[j];
    }
  }

  /**
   When the times of the events never go back in the order in which the events take the lock,
   evictions cannot be seen: every alert gets the same answer as without them.
   */
  lemma EvictionIsInvisible(events: seq<Event>, window: int64)
    requires OneClock(events)
    ensures Outcomes(events, window, true) == Outcomes(events, window, false)
  {
    OrderedIsNotLate(events, window);
    EvictionVisibleToLateAlertsOnly(events, window);
  }

  /**
   Late alerts exist, with times of their own or with the clock's: one whose time was taken before
   an eviction's, close enough in time to its incident, opens the incident again after the eviction,
   although without it the alert is a suppressed duplicate.
   */
  lemma LateAlertSeesEviction(a: Alert, b: Alert, aClock: int64, bClock: int64, evictAt: int64, window: int64)
    requires window > 0 && !Malformed(a) && !Malformed(b) && KeyOf(a) == KeyOf(b) && NodeOf(b) == NodeOf(a)
    requires 0 < TimeOf(a, aClock) <= TimeOf(b, bClock) <= TimeOf(a, aClock) + window < evictAt
    ensures var events := [Arrive(a, aClock), Tick(evictAt)];
      && OutcomeOf(After(map[], events, window, false), b, bClock, window) == Outcome(None, false)
      && OutcomeOf(After(map[], events, window, true), b, bClock, window).emit
  {
    hide Listing;
    var e1, e2 := [Arrive(a, aClock)], [Arrive(a, aClock), Tick(evictAt)];
    assert e1[..0] == [] && e2[..1] == e1;
    var st := Opened(a, TimeOf(a, aClock));
    assert Joined(st, b, TimeOf(b, bClock)).nodes == st.nodes;
    forall evicting: bool
      ensures After(map[], e1, window, evicting) == map[KeyOf(a) := st]
    {
      assert After(map[], [], window, evicting) == map[];
    }
    assert Evict(map[KeyOf(a) := st], evictAt, window) == map[];
  }

  // ---- Generations ----

  // The alerts of one incident, with the times they were given.
  datatype Arrival = Arrival(a: Alert, now: int64)

  ghost function NextGeneration(g: seq<Arrival>, e: Event, window: int64, evicting: bool, key: string): seq<Arrival> {
    match e
    case Tick(clock) => if evicting && g != [] && Minus(clock, g[|g| - 1].now) > window then [] else g
    case Arrive(a, clock) =>
      if Malformed(a) || KeyOf(a) != key then g
      else if g == [] || Minus(TimeOf(a, clock), g[|g| - 1].now) > window then [Arrival(a, TimeOf(a, clock))]
      else g + [Arrival(a, TimeOf(a, clock))]
  }

  // The alerts of the current incident of `key`, since it was last opened; none when the incident
  // has been evicted.
  ghost function Generation(events: seq<Event>, window: int64, evicting: bool, key: string): seq<Arrival> {
    if events == [] then []
    else
      var before := Generation(events[..|events| - 1], window, evicting, key);
      NextGeneration(before, events[|events| - 1], window, evicting, key)
  }

  ghost function Nodes(g: seq<Arrival>): set<string> {
    if g == [] then {} else Nodes(g[..|g| - 1]) + NodeOf(g[|g| - 1].a)
  }

  ghost function IncidentOf(g: seq<Arrival>): Incident
    requires g != []
  {
    Incident(KeyOf(g[0].a), g[0].now, g[|g| - 1].now, |g|, Nodes(g), g[0].a.severity)
  }

  lemma NodesSnoc(g: seq<Arrival>, x: Arrival)
    ensures Nodes(g + [x]) == Nodes(g) + NodeOf(x.a)
  {
    assert (g + [x])[..|g|] == g;
  }

  ghost predicate Summarizes(m: Incidents, g: seq<Arrival>, key: string) {
    && (key in m <==> g != [])
    && (key in m ==> m[key] == IncidentOf(g) && KeyOf(g[0].a) == key)
  }

  lemma GenerationStep(m: Incidents, g: seq<Arrival>, a: Alert, clock: int64, window: int64, evicting: bool,
                       key: string)
    requires Summarizes(m, g, key)
    ensures Summarizes(NextIncidents(m, a, clock, window),
                       NextGeneration(g, Arrive(a, clock), window, evicting, key), key)
  {
    hide KeyOf;
    var x := Arrival(a, TimeOf(a, clock));
    NodesSnoc([], x);
    NodesSnoc(g, x);
    assert [] + [x] == [x];
    if !Malformed(a) && KeyOf(a) == key && g != [] {
      assert IncidentOf(g + [x]) == Joined(IncidentOf(g), a, x.now);
    }
  }

  // An eviction ends the incident of the key, or leaves it alone.
  lemma EvictionStep(m: Incidents, g: seq<Arrival>, clock: int64, window: int64, evicting: bool, key: string)
    requires Summarizes(m, g, key)
    ensures Summarizes(if evicting then Evict(m, clock, window) else m,
                       NextGeneration(g, Tick(clock), window, evicting, key), key)
  {
  }

  /**
   In every run, with or without evictions, the incident kept for a key summarizes exactly the alerts
   of its current generation.
   */
  lemma {:induction false} IncidentIsGeneration(events: seq<Event>, window: int64, evicting: bool, key: string)
    ensures Summarizes(After(map[], events, window, evicting), Generation(events, window, evicting, key), key)
  {
    hide Summarizes, NextIncidents, NextGeneration, Evict;
    if events == [] {
      SummarizesNothing(key);
    } else {
      var n := |events| - 1;
      var front := events[..n];
      var m, g := After(map[], front, window, evicting), Generation(front, window, evicting, key);
      IncidentIsGeneration(front, window, evicting, key);
      match events[n]
      case Tick(clock) => EvictionStep(m, g, clock, window, evicting, key);
      case Arrive(a, clock) => GenerationStep(m, g, a, clock, window, evicting, key);
    }
  }

  lemma SummarizesNothing(key: string)
    ensures Summarizes(map[], [], key)
  {
  }

  // An alert of a generation that is passed on: the first, and the one that brings a second node.
  ghost predicate EmitsAt(g: seq<Arrival>, i: nat)
    requires i < |g|
  {
    i == 0 || |Nodes(g[..i])| < 2 <= |Nodes(g[..i + 1])|
  }

  // What is to become of alert `a`, the last of generation `g`: it is passed on when it is the first
  // or brings the second node, with the number of alerts and the sorted nodes so far.
  ghost predicate RightOutcome(g: seq<Arrival>, a: Alert, r: Outcome) {
    && g != [] && (r.emit <==> EmitsAt(g, |g| - 1)) && (r.out.Some? <==> r.emit)
    && (r.emit ==>
      && r.out.value.correlation == Some(SnapshotOf(IncidentOf(g)))
      && r.out.value.(correlation := a.correlation) == if |g| == 1 then a else Upgraded(a))
  }

  lemma NextOutcome(events: seq<Event>, window: int64, evicting: bool, a: Alert, clock: int64)
    requires !Malformed(a)
    ensures var g := Generation(events + [Arrive(a, clock)], window, evicting, KeyOf(a));
      && g != [] && g[|g| - 1] == Arrival(a, TimeOf(a, clock))
      && RightOutcome(g, a, OutcomeOf(After(map[], events, window, evicting), a, clock, window))
  {
    var all := events + [Arrive(a, clock)];
    assert all[..|events|] == events;
    var before, x := Generation(events, window, evicting, KeyOf(a)), Arrival(a, TimeOf(a, clock));
    IncidentIsGeneration(events, window, evicting, KeyOf(a));
    NodesSnoc([], x);
    NodesSnoc(before, x);
    assert [] + [x] == [x];
    var g := Generation(all, window, evicting, KeyOf(a));
    assert g == before + [x] || g == [x];
    assert g[..|g|] == g;
    assert (before + [x])[..|before|] == before;
    if g != [x] {
      assert IncidentOf(g) == Joined(IncidentOf(before), a, x.now);
    }
  }

  // The answer to the last event of a run.
  ghost function LastOutcome(events: seq<Event>, window: int64, evicting: bool): Outcome
    requires events != [] && events[|events| - 1].Arrive?
  {
    var rs := Outcomes(events, window, evicting);
    rs[|rs| - 1]
  }

  lemma LastOutcomeIs(events: seq<Event>, window: int64, evicting: bool)
    requires events != [] && events[|events| - 1].Arrive?
    ensures var e := events[|events| - 1];
      LastOutcome(events, window, evicting) ==
      OutcomeOf(After(map[], events[..|events| - 1], window, evicting), e.a, e.clock, window)
  {
    hide OutcomeOf, Evict, NextIncidents;
  }

  /**
   In every run, with or without evictions and whatever times its events carry, what becomes of an
   alert is decided by the alerts of its incident so far.
   */
  lemma OutcomeByGeneration(events: seq<Event>, window: int64, evicting: bool)
    requires events != [] && events[|events| - 1].Arrive? && !Malformed(events[|events| - 1].a)
    ensures var e := events[|events| - 1];
      var g := Generation(events, window, evicting, KeyOf(e.a));
      && g != [] && g[|g| - 1] == Arrival(e.a, EventTime(e))
      && RightOutcome(g, e.a, LastOutcome(events, window, evicting))
  {
    hide OutcomeOf, RightOutcome, LastOutcome, Generation, After;
    var n := |events| - 1;
    assert events == events[..n] + [Arrive(events[n].a, events[n].clock)];
    LastOutcomeIs(events, window, evicting);
    NextOutcome(events[..n], window, evicting, events[n].a, events[n].clock);
  }

  ghost function EmitCount(g: seq<Arrival>, n: nat): nat
    requires n <= |g|
  {
    if n == 0 then 0 else EmitCount(g, n - 1) + if EmitsAt(g, n - 1) then 1 else 0
  }

  lemma FirstNodes(g: seq<Arrival>)
    requires g != []
    ensures |Nodes(g[..1])| <= 1
  {
    assert g[..1][..0] == [];
  }

  lemma NodesGrow(g: seq<Arrival>, n: nat)
    requires n < |g|
    ensures Nodes(g[..n]) <= Nodes(g[..n + 1])
  {
    assert g[..n + 1] == g[..n] + [g[n]];
    NodesSnoc(g[..n], g[n]);
  }

  /**
   A generation is passed on once, or twice exactly when at least two different nodes reported.
   */
  lemma {:induction false} OnceOrTwice(g: seq<Arrival>, n: nat)
    requires 1 <= n <= |g|
    ensures EmitCount(g, n) == if |Nodes(g[..n])| >= 2 then 2 else 1
  {
    hide NodeOf, Nodes;
    if n == 1 {
      FirstNodes(g);
      assert EmitCount(g, 0) == 0;
    } else {
      NodesGrow(g, n - 1);
      OnceOrTwice(g, n - 1);
      SubsetSize(Nodes(g[..n - 1]), Nodes(g[..n]));
    }
  }

  // How many alerts of the current incident of `key` the run has passed on.
  ghost function Emissions(events: seq<Event>, window: int64, evicting: bool, key: string): nat {
    var g := Generation(events, window, evicting, key);
    if events == [] || g == [] then 0
    else
      var front, e := events[..|events| - 1], events[|events| - 1];
      if !Concerns(e, key) then Emissions(front, window, evicting, key)
      else
        (if |g| == 1 then 0 else Emissions(front, window, evicting, key)) +
        if LastOutcome(events, window, evicting).emit then 1 else 0
  }

  /**
   In every run, with or without evictions and whatever times its events carry, an incident is passed
   on once, or twice exactly when at least two different nodes have reported.
   */
  lemma {:induction false} IncidentEmissions(events: seq<Event>, window: int64, evicting: bool, key: string)
    ensures var g := Generation(events, window, evicting, key);
      Emissions(events, window, evicting, key) == if g == [] then 0 else if |Nodes(g)| >= 2 then 2 else 1
  {
    hide Nodes, LastOutcome, Concerns, NextGeneration;
    CountedEmissions(events, window, evicting, key);
    var g := Generation(events, window, evicting, key);
    assert g[..|g|] == g;
    if g != [] {
      OnceOrTwice(g, |g|);
    }
  }

  lemma {:induction false} CountedEmissions(events: seq<Event>, window: int64, evicting: bool, key: string)
    ensures var g := Generation(events, window, evicting, key);
      Emissions(events, window, evicting, key) == EmitCount(g, |g|)
  {
    hide Nodes, LastOutcome, OutcomeOf, EmitsAt;
    if events != [] {
      var n := |events| - 1;
      var before, g := Generation(events[..n], window, evicting, key), Generation(events, window, evicting, key);
      CountedEmissions(events[..n], window, evicting, key);
      if Concerns(events[n], key) {
        OutcomeByGeneration(events, window, evicting);
        if |g| > 1 {
          assert g == before + [g[|g| - 1]];
          EmitCountPrefix(before, g[|g| - 1], |before|);
        } else {
          assert EmitCount(g, 0) == 0;
        }
      }
    }
  }

  lemma {:induction false} EmitCountPrefix(g: seq<Arrival>, x: Arrival, n: nat)
    requires n <= |g|
    ensures EmitCount(g + [x], n) == EmitCount(g, n)
  {
    hide Nodes;
    if n > 0 {
      EmitCountPrefix(g, x, n - 1);
      assert (g + [x])[..n - 1] == g[..n - 1] && (g + [x])[..n] == g[..n];
    }
  }

  /**
   Evictions only ever cut incidents short: the alerts of the current incident with evictions are the
   latest of those without.
   */
  lemma {:induction false} EvictionsCutIncidents(events: seq<Event>, window: int64, key: string)
    ensures var cut, whole := Generation(events, window, true, key), Generation(events, window, false, key);
      |cut| <= |whole| && cut == whole[|whole| - |cut|..]
  {
    if events == [] {
    } else {
      var front, e := events[..|events| - 1], events[|events| - 1];
      EvictionsCutIncidents(front, window, key);
      CutStep(Generation(front, window, true, key), Generation(front, window, false, key), e, window, key);
    }
  }

  lemma CutStep(cut: seq<Arrival>, whole: seq<Arrival>, e: Event, window: int64, key: string)
    requires |cut| <= |whole| && cut == whole[|whole| - |cut|..]
    ensures var cut', whole' :=
        NextGeneration(cut, e, window, true, key), NextGeneration(whole, e, window, false, key);
      |cut'| <= |whole'| && cut' == whole'[|whole'| - |cut'|..]
  {
    if cut != [] {
      assert cut[|cut| - 1] == whole[|whole| - 1];
    }
    if e.Arrive? {
      var x := Arrival(e.a, TimeOf(e.a, e.clock));
      assert (whole + [x])[|whole| - |cut|..] == cut + [x];
      assert (whole + [x])[|whole|..] == [x];
    }
  }
}
