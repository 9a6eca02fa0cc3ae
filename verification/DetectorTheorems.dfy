/**
 What the detector reports over a whole run, and how the three detectors compare on one stream.
 Event number `i` counts from 0; the source's event index is `i + 1`.
 */
module DetectorTheorems {
  import opened Words
  import opened Keys
  import opened CountMin
  import opened MisraGries
  import opened Estimators
  import opened Detector

  // ---- Windows: a matter of the timestamps alone ----

  ghost function WindowAfter(windowNs: uint64, events: seq<Event>): Window {
    if events == [] then Window(0, 0, [])
    else Enter(WindowAfter(windowNs, events[..|events| - 1]), events[|events| - 1], windowNs)
  }

  // The window right after event `i`, with that event in it.
  ghost function At(windowNs: uint64, events: seq<Event>, i: nat): Window
    requires i < |events|
  {
    WindowAfter(windowNs, events[..i + 1])
  }

  lemma AtStep(windowNs: uint64, events: seq<Event>, i: nat)
    requires i < |events|
    ensures At(windowNs, events, i) == Enter(WindowAfter(windowNs, events[..i]), events[i], windowNs)
    ensures i > 0 ==> At(windowNs, events, i) == Enter(At(windowNs, events, i - 1), events[i], windowNs)
    ensures WindowAfter(windowNs, events[..i]) == if i == 0 then Window(0, 0, []) else At(windowNs, events, i - 1)
  {
    assert events[..i + 1][..i] == events[..i];
  }

  lemma AtPrefix(windowNs: uint64, events: seq<Event>, n: nat, i: nat)
    requires i < n <= |events|
    ensures At(windowNs, events[..n], i) == At(windowNs, events, i)
  {
    assert events[..n][..i + 1] == events[..i + 1];
  }

  // The window does not depend on the estimator.
  lemma {:induction false} SameWindows(cfg: Config, events: seq<Event>)
    requires WellConfigured(cfg.algo)
    ensures RunAll(cfg, events).window == WindowAfter(cfg.windowNs, events)
    ensures RunAll(cfg, events).total == |events|
  {
    if events != [] {
      SameWindows(cfg, events[..|events| - 1]);
    }
  }

  // Two events share a window.
  ghost predicate Together(windowNs: uint64, events: seq<Event>, i: nat, j: nat) {
    i < |events| && j < |events| && At(windowNs, events, i).id == At(windowNs, events, j).id
  }

  lemma {:induction false} WindowsAdvance(windowNs: uint64, events: seq<Event>, i: nat, j: nat)
    requires i <= j < |events|
    ensures At(windowNs, events, i).id <= At(windowNs, events, j).id
  {
    if i < j {
      WindowsAdvance(windowNs, events, i, j - 1);
      AtStep(windowNs, events, j);
    }
  }

  // ---- When an alert is due ----

  ghost predicate Exceeds(cfg: Config, events: seq<Event>, i: nat)
    requires WellConfigured(cfg.algo) && i < |events|
  {
    Freq(cfg, At(cfg.windowNs, events, i), events[i].srcIp) > cfg.threshold
  }

  // Event `j`, no later than event `i` and in the same window, was from `x` and over the threshold.
  ghost predicate OverAt(cfg: Config, events: seq<Event>, i: nat, x: uint32, j: int)
    requires WellConfigured(cfg.algo)
  {
    0 <= j <= i < |events| && Together(cfg.windowNs, events, j, i) && events[j].srcIp == x && Exceeds(cfg, events, j)
  }

  // `x` was over the threshold in the window of event `i` before that event.
  ghost predicate OverBefore(cfg: Config, events: seq<Event>, i: nat, x: uint32)
    requires WellConfigured(cfg.algo)
  {
    exists j :: j < i && OverAt(cfg, events, i, x, j)
  }

  ghost predicate OverBy(cfg: Config, events: seq<Event>, i: nat, x: uint32)
    requires WellConfigured(cfg.algo)
  {
    exists j :: OverAt(cfg, events, i, x, j)
  }

  // The first event of its source in its window that is over the threshold.
  ghost predicate Due(cfg: Config, events: seq<Event>, i: nat)
    requires WellConfigured(cfg.algo) && i < |events|
  {
    Exceeds(cfg, events, i) && !OverBefore(cfg, events, i, events[i].srcIp)
  }

  ghost function AlertAt(cfg: Config, events: seq<Event>, i: nat): Alert
    requires WellConfigured(cfg.algo) && i < |events|
  {
    var w := At(cfg.windowNs, events, i);
    Alert(events[i].srcIp, Freq(cfg, w, events[i].srcIp), events[i].timestampNs, w.id, i + 1)
  }

  ghost function AlertsUpTo(cfg: Config, events: seq<Event>, n: nat): seq<Alert>
    requires WellConfigured(cfg.algo) && n <= |events|
  {
    if n == 0 then []
    else AlertsUpTo(cfg, events, n - 1) + if Due(cfg, events, n - 1) then [AlertAt(cfg, events, n - 1)] else []
  }

  lemma OverBySplits(cfg: Config, events: seq<Event>, i: nat, x: uint32)
    requires WellConfigured(cfg.algo) && i < |events|
    ensures OverBy(cfg, events, i, x) <==>
        OverBefore(cfg, events, i, x) || (events[i].srcIp == x && Exceeds(cfg, events, i))
  {
    hide Exceeds, At;
    if events[i].srcIp == x && Exceeds(cfg, events, i) {
      assert OverAt(cfg, events, i, x, i);
    }
  }

  // The window number goes up exactly when the window expires.
  lemma IdStep(windowNs: uint64, events: seq<Event>, n: nat)
    requires n < |events|
    ensures var expired := Expired(WindowAfter(windowNs, events[..n]), events[n].timestampNs, windowNs);
      if n == 0 then !expired
      else At(windowNs, events, n).id == At(windowNs, events, n - 1).id + (if expired then 1 else 0)
  {
    AtStep(windowNs, events, n);
  }

  // A closing window forgets who was over; an open one does not.
  lemma OverBeforeStep(cfg: Config, events: seq<Event>, n: nat, x: uint32)
    requires WellConfigured(cfg.algo) && 0 < n < |events|
    ensures OverBefore(cfg, events, n, x) <==>
        OverBy(cfg, events, n - 1, x) &&
        !Expired(WindowAfter(cfg.windowNs, events[..n]), events[n].timestampNs, cfg.windowNs)
  {
    hide Exceeds, At, WindowAfter, Expired;
    IdStep(cfg.windowNs, events, n);
    if OverBefore(cfg, events, n, x) {
      var j :| j < n && OverAt(cfg, events, n, x, j);
      WindowsAdvance(cfg.windowNs, events, j, n - 1);
      assert OverAt(cfg, events, n - 1, x, j);
    }
    if OverBy(cfg, events, n - 1, x) && At(cfg.windowNs, events, n).id == At(cfg.windowNs, events, n - 1).id {
      var j :| OverAt(cfg, events, n - 1, x, j);
      assert OverAt(cfg, events, n, x, j);
    }
  }

  // The sources the detector remembers are those that went over the threshold in this window.
  ghost predicate Remembers(cfg: Config, events: seq<Event>, n: nat, alerted: set<uint32>)
    requires WellConfigured(cfg.algo) && n <= |events|
  {
    forall x :: x in alerted <==> n > 0 && OverBy(cfg, events, n - 1, x)
  }

  lemma RemembersStep(cfg: Config, events: seq<Event>, n: nat, s: State)
    requires WellConfigured(cfg.algo) && n < |events| && s.total == n
    requires s.window == WindowAfter(cfg.windowNs, events[..n]) && Remembers(cfg, events, n, s.alerted)
    ensures Remembers(cfg, events, n + 1, Next(cfg, s, events[n]).alerted)
    ensures Next(cfg, s, events[n]).alerts == s.alerts + (if Due(cfg, events, n) then [AlertAt(cfg, events, n)] else [])
  {
    hide OverBy, OverBefore, Freq, Enter, Expired, WindowAfter;
    AtStep(cfg.windowNs, events, n);
    var prior := if Expired(s.window, events[n].timestampNs, cfg.windowNs) then {} else s.alerted;
    forall x
      ensures x in prior <==> OverBefore(cfg, events, n, x)
      ensures OverBy(cfg, events, n, x) <==>
          OverBefore(cfg, events, n, x) || (events[n].srcIp == x && Exceeds(cfg, events, n))
    {
      OverBySplits(cfg, events, n, x);
      if n > 0 {
        OverBeforeStep(cfg, events, n, x);
      } else {
        NobodyOverBefore(cfg, events, x);
      }
    }
  }

  lemma NobodyOverBefore(cfg: Config, events: seq<Event>, x: uint32)
    requires WellConfigured(cfg.algo)
    ensures !OverBefore(cfg, events, 0, x)
  {
  }

  /** The alerts of a run are exactly those that are due, in order. */
  lemma {:induction false} AlertsOfRun(cfg: Config, events: seq<Event>, n: nat)
    requires WellConfigured(cfg.algo) && n <= |events|
    ensures RunAll(cfg, events[..n]).alerts == AlertsUpTo(cfg, events, n)
    ensures Remembers(cfg, events, n, RunAll(cfg, events[..n]).alerted)
  {
    hide OverBy, Due, Next;
    if n > 0 {
      AlertsOfRun(cfg, events, n - 1);
      assert events[..n][..n - 1] == events[..n - 1];
      SameWindows(cfg, events[..n - 1]);
      RemembersStep(cfg, events, n - 1, RunAll(cfg, events[..n - 1]));
    }
  }

  // ---- Consequences for one detector ----

  lemma {:induction false} AlertsAreDue(cfg: Config, events: seq<Event>, n: nat, a: Alert) returns (i: nat)
    requires WellConfigured(cfg.algo) && n <= |events| && a in AlertsUpTo(cfg, events, n)
    ensures i < n && Due(cfg, events, i) && a == AlertAt(cfg, events, i)
  {
    hide Due, AlertAt;
    if a in AlertsUpTo(cfg, events, n - 1) {
      i := AlertsAreDue(cfg, events, n - 1, a);
    } else {
      i := n - 1;
    }
  }

  lemma {:induction false} DueIsAlerted(cfg: Config, events: seq<Event>, n: nat, i: nat)
    requires WellConfigured(cfg.algo) && i < n <= |events| && Due(cfg, events, i)
    ensures AlertAt(cfg, events, i) in AlertsUpTo(cfg, events, n)
  {
    if i < n - 1 {
      DueIsAlerted(cfg, events, n - 1, i);
    }
  }

  /** At most one alert per window and source. */
  lemma OneAlertPerWindow(cfg: Config, events: seq<Event>, a: Alert, b: Alert)
    requires WellConfigured(cfg.algo)
    requires a in RunAll(cfg, events).alerts && b in RunAll(cfg, events).alerts
    requires a.windowId == b.windowId && a.srcIp == b.srcIp
    ensures a == b
  {
    assert events[..|events|] == events;
    AlertsOfRun(cfg, events, |events|);
    var i := AlertsAreDue(cfg, events, |events|, a);
    var j := AlertsAreDue(cfg, events, |events|, b);
    if i < j {
      assert OverAt(cfg, events, j, events[j].srcIp, i);
    } else if j < i {
      assert OverAt(cfg, events, i, events[i].srcIp, j);
    }
  }

  // Whoever goes over the threshold gets an alert no later than that, in that window.
  lemma {:induction false} FirstOver(cfg: Config, events: seq<Event>, i: nat) returns (j: nat)
    requires WellConfigured(cfg.algo) && i < |events| && Exceeds(cfg, events, i)
    ensures j <= i && Due(cfg, events, j)
    ensures Together(cfg.windowNs, events, j, i) && events[j].srcIp == events[i].srcIp
  {
    if Due(cfg, events, i) {
      j := i;
    } else {
      var m :| m < i && OverAt(cfg, events, i, events[i].srcIp, m);
      j := FirstOver(cfg, events, m);
    }
  }

  // ---- The true count of a source in its window ----

  ghost function TrueCount(windowNs: uint64, events: seq<Event>, i: nat, x: uint32): nat
    requires i < |events|
  {
    multiset(At(windowNs, events, i).ips)[x]
  }

  lemma ExactFreq(cfg: Config, events: seq<Event>, i: nat)
    requires cfg.algo == HashMap && i < |events|
    ensures Exceeds(cfg, events, i) <==> TrueCount(cfg.windowNs, events, i, events[i].srcIp) > cfg.threshold
  {
    KeyCount(At(cfg.windowNs, events, i).ips, events[i].srcIp);
  }

  // Within a window the count grows by one at each event of the source and at no other event.
  lemma CountStep(windowNs: uint64, events: seq<Event>, i: nat, x: uint32)
    requires i < |events|
    ensures TrueCount(windowNs, events, i, x) == (if events[i].srcIp == x then 1 else 0) +
        if i > 0 && Together(windowNs, events, i - 1, i) then TrueCount(windowNs, events, i - 1, x) else 0
  {
    AtStep(windowNs, events, i);
  }

  lemma {:induction false} CountGrows(windowNs: uint64, events: seq<Event>, j: nat, i: nat, x: uint32)
    requires j <= i < |events| && Together(windowNs, events, j, i)
    ensures TrueCount(windowNs, events, j, x) <= TrueCount(windowNs, events, i, x)
    ensures j < i && events[i].srcIp == x ==> TrueCount(windowNs, events, j, x) < TrueCount(windowNs, events, i, x)
  {
    if j < i {
      WindowsAdvance(windowNs, events, j, i - 1);
      WindowsAdvance(windowNs, events, i - 1, i);
      CountGrows(windowNs, events, j, i - 1, x);
      CountStep(windowNs, events, i, x);
    }
  }

  // The event at which the count reached a given value.
  lemma {:induction false} ReachedAt(windowNs: uint64, events: seq<Event>, i: nat, x: uint32, c: nat) returns (j: nat)
    requires i < |events| && 1 <= c <= TrueCount(windowNs, events, i, x)
    ensures j <= i && Together(windowNs, events, j, i) && events[j].srcIp == x
    ensures TrueCount(windowNs, events, j, x) == c
  {
    CountStep(windowNs, events, i, x);
    if events[i].srcIp == x && TrueCount(windowNs, events, i, x) == c {
      j := i;
    } else {
      j := ReachedAt(windowNs, events, i - 1, x, c);
    }
  }

  /**
   The exact detector alerts a source at its (threshold + 1)-th event in the window, and at no
   other.
   */
  lemma ExactAlertsAtThreshold(cfg: Config, events: seq<Event>, i: nat)
    requires cfg.algo == HashMap && i < |events|
    ensures Due(cfg, events, i) <==> TrueCount(cfg.windowNs, events, i, events[i].srcIp) == cfg.threshold + 1
  {
    var x, w := events[i].srcIp, cfg.windowNs;
    ExactFreq(cfg, events, i);
    if TrueCount(w, events, i, x) == cfg.threshold + 1 {
      forall j | j < i
        ensures !OverAt(cfg, events, i, x, j)
      {
        if OverAt(cfg, events, i, x, j) {
          ExactFreq(cfg, events, j);
          CountGrows(w, events, j, i, x);
        }
      }
    } else if TrueCount(w, events, i, x) > cfg.threshold + 1 {
      var j := ReachedAt(w, events, i, x, cfg.threshold + 1);
      ExactFreq(cfg, events, j);
      assert OverAt(cfg, events, i, x, j);
    }
  }

  // ---- The three detectors on one stream ----

  lemma WindowIsShort(windowNs: uint64, events: seq<Event>, i: nat)
    requires i < |events|
    ensures |At(windowNs, events, i).ips| <= i + 1
  {
    AtStep(windowNs, events, i);
    if i > 0 {
      WindowIsShort(windowNs, events, i - 1);
    }
  }

  lemma ExceedsBracketed(mg: Config, exact: Config, cms: Config, events: seq<Event>, i: nat)
    requires Comparable(mg, exact, cms) && i < |events| <= MAX_U64
    ensures Exceeds(mg, events, i) ==> Exceeds(exact, events, i)
    ensures Exceeds(exact, events, i) ==> Exceeds(cms, events, i)
  {
    WindowIsShort(mg.windowNs, events, i);
    Bracketed(KeysOf(At(mg.windowNs, events, i).ips), U32Key(events[i].srcIp),
              mg.algo.k, cms.algo.width, cms.algo.depth);
  }

  // One configuration for each algorithm, alike in everything else.
  ghost predicate Comparable(mg: Config, exact: Config, cms: Config) {
    && mg.algo.Mg? && exact.algo == HashMap && cms.algo.Cms?
    && WellConfigured(mg.algo) && WellConfigured(cms.algo)
    && mg.threshold == exact.threshold == cms.threshold && mg.windowNs == exact.windowNs == cms.windowNs
  }

  // `b` is about the same window and source as `a`, and came no later.
  ghost predicate Anticipates(b: Alert, a: Alert) {
    b.windowId == a.windowId && b.srcIp == a.srcIp && b.eventIndex <= a.eventIndex
  }

  lemma Anticipated(cfg: Config, cfg': Config, events: seq<Event>, a: Alert) returns (b: Alert)
    requires WellConfigured(cfg.algo) && WellConfigured(cfg'.algo) && cfg.windowNs == cfg'.windowNs
    requires forall i :: 0 <= i < |events| && Exceeds(cfg, events, i) ==> Exceeds(cfg', events, i)
    requires a in RunAll(cfg, events).alerts
    ensures b in RunAll(cfg', events).alerts && Anticipates(b, a)
  {
    assert events[..|events|] == events;
    AlertsOfRun(cfg, events, |events|);
    AlertsOfRun(cfg', events, |events|);
    var i := AlertsAreDue(cfg, events, |events|, a);
    var j := FirstOver(cfg', events, i);
    DueIsAlerted(cfg', events, |events|, j);
    b := AlertAt(cfg', events, j);
  }

  /**
   On every stream, an alert of the Misra-Gries detector is anticipated by one of the exact
   detector, and every alert of that one by one of the sketch.
   */
  lemma DetectorsBracket(mg: Config, exact: Config, cms: Config, events: seq<Event>)
    requires Comparable(mg, exact, cms) && |events| <= MAX_U64
    ensures forall a :: a in RunAll(mg, events).alerts ==>
        exists b :: b in RunAll(exact, events).alerts && Anticipates(b, a)
    ensures forall a :: a in RunAll(exact, events).alerts ==>
        exists b :: b in RunAll(cms, events).alerts && Anticipates(b, a)
  {
    forall i | 0 <= i < |events|
      ensures Exceeds(mg, events, i) ==> Exceeds(exact, events, i)
      ensures Exceeds(exact, events, i) ==> Exceeds(cms, events, i)
    {
      ExceedsBracketed(mg, exact, cms, events, i);
    }
    forall a | a in RunAll(mg, events).alerts
      ensures exists b :: b in RunAll(exact, events).alerts && Anticipates(b, a)
    {
      var b := Anticipated(mg, exact, events, a);
    }
    forall a | a in RunAll(exact, events).alerts
      ensures exists b :: b in RunAll(cms, events).alerts && Anticipates(b, a)
    {
      var b := Anticipated(exact, cms, events, a);
    }
  }

  // The run has an alert for the source and window of event `i`, no later than that event.
  ghost predicate Reported(cfg: Config, events: seq<Event>, i: nat)
    requires WellConfigured(cfg.algo)
  {
    exists j :: 0 <= j <= i && AlertedFor(cfg, events, j, i)
  }

  ghost predicate AlertedFor(cfg: Config, events: seq<Event>, j: nat, i: nat)
    requires WellConfigured(cfg.algo)
  {
    && Together(cfg.windowNs, events, j, i) && events[j].srcIp == events[i].srcIp
    && AlertAt(cfg, events, j) in RunAll(cfg, events).alerts
  }

  lemma MisraGriesExceeds(cfg: Config, events: seq<Event>, i: nat)
    requires cfg.algo.Mg? && WellConfigured(cfg.algo) && i < |events|
    ensures var f := TrueCount(cfg.windowNs, events, i, events[i].srcIp);
      && (Exceeds(cfg, events, i) ==> f > cfg.threshold)
      && (cfg.algo.k * (f - cfg.threshold) > |At(cfg.windowNs, events, i).ips| ==> Exceeds(cfg, events, i))
  {
    hide Run, Phases, KeysOf, U32Key, At, EstimateOf;
    var w, x, k := At(cfg.windowNs, events, i), events[i].srcIp, cfg.algo.k;
    KeyCount(w.ips, x);
    MisraGries.EstimateBounds(KeysOf(w.ips), k, U32Key(x));
    HeavyHitterGuarantee(KeysOf(w.ips), k, U32Key(x));
    var f, e := multiset(w.ips)[x], Freq(cfg, w, x);
    if e <= cfg.threshold {
      MulMonotone(k, f - cfg.threshold, f - e);
    }
  }

  /**
   Misra-Gries reports no source at or below the threshold, and reports every source whose
   excess over the threshold, times `k`, is more than the window's length.
   */
  lemma MisraGriesReports(cfg: Config, events: seq<Event>, i: nat)
    requires cfg.algo.Mg? && WellConfigured(cfg.algo) && i < |events|
    ensures Due(cfg, events, i) ==> TrueCount(cfg.windowNs, events, i, events[i].srcIp) > cfg.threshold
    ensures var excess := TrueCount(cfg.windowNs, events, i, events[i].srcIp) - cfg.threshold;
      cfg.algo.k * excess > |At(cfg.windowNs, events, i).ips| ==>
        Reported(cfg, events, i)
  {
    hide At, AlertAt, TrueCount, Freq;
    MisraGriesExceeds(cfg, events, i);
    if Exceeds(cfg, events, i) {
      var j := FirstOver(cfg, events, i);
      assert events[..|events|] == events;
      AlertsOfRun(cfg, events, |events|);
      DueIsAlerted(cfg, events, |events|, j);
      assert AlertedFor(cfg, events, j, i);
    }
  }

  /** The sketch misses no source whose true count in the window exceeds the threshold. */
  lemma SketchMissesNothing(cfg: Config, events: seq<Event>, i: nat)
    requires cfg.algo.Cms? && WellConfigured(cfg.algo) && i < |events| <= MAX_U64
    requires TrueCount(cfg.windowNs, events, i, events[i].srcIp) > cfg.threshold
    ensures Reported(cfg, events, i)
  {
    hide AlertAt;
    var exact := cfg.(algo := HashMap);
    ExactFreq(exact, events, i);
    ExceedsBracketed(cfg.(algo := Mg(2)), exact, cfg, events, i);
    var j := FirstOver(cfg, events, i);
    assert events[..|events|] == events;
    AlertsOfRun(cfg, events, |events|);
    DueIsAlerted(cfg, events, |events|, j);
    assert AlertedFor(cfg, events, j, i);
  }
}
