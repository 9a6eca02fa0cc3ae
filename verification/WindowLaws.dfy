/** What a detection window is, in plain arithmetic on the timestamps. */
module WindowLaws {
  import opened Words
  import opened Keys
  import opened Estimators
  import opened Detector
  import opened DetectorTheorems

  // An event at time `t` belongs to a window that started at `s`: it is no more than the window's
  // length later, or so much earlier that the unsigned difference wraps to no more than that.
  predicate Inside(s: int, t: int, windowNs: int) {
    s <= t <= s + windowNs || (t < s && t - s + 0x1_0000_0000_0000_0000 <= windowNs)
  }

  /** The first event opens window 0 at its own time. */
  lemma FirstWindow(windowNs: uint64, events: seq<Event>)
    requires events != []
    ensures var w := At(windowNs, events, 0);
      w.start == events[0].timestampNs && w.id == 0 && w.ips == [events[0].srcIp]
  {
    AtStep(windowNs, events, 0);
  }

  /**
   An event stays in the window of the one before if and only if it lies inside it; otherwise it opens
   the next window at its own time. A window whose start is 0 has not started yet: it takes in every
   event and starts anew with each, until one has a time other than 0.
   */
  lemma WindowLaw(windowNs: uint64, events: seq<Event>, i: nat)
    requires 0 < i < |events|
    ensures var v, w, t := At(windowNs, events, i - 1), At(windowNs, events, i), events[i].timestampNs;
      && (Together(windowNs, events, i - 1, i) <==> v.start == 0 || Inside(v.start, t, windowNs))
      && (Together(windowNs, events, i - 1, i) ==>
        w.id == v.id && w.ips == v.ips + [events[i].srcIp] && w.start == if v.start == 0 then t else v.start)
      && (!Together(windowNs, events, i - 1, i) ==>
        w.id == v.id + 1 && w.ips == [events[i].srcIp] && w.start == t)
  {
    AtStep(windowNs, events, i);
  }

  // Event `j` is the first of its window.
  ghost predicate Opens(windowNs: uint64, events: seq<Event>, j: nat) {
    j < |events| && (j == 0 || !Together(windowNs, events, j - 1, j))
  }

  function Sources(events: seq<Event>): (s: seq<uint32>)
    ensures |s| == |events| && forall k :: 0 <= k < |s| ==> s[k] == events[k].srcIp
  {
    if events == [] then [] else Sources(events[..|events| - 1]) + [events[|events| - 1].srcIp]
  }

  /** A window starts at its first event's time, and holds the sources of its events so far. */
  lemma {:induction false} WindowFromFirst(windowNs: uint64, events: seq<Event>, j: nat, i: nat)
    requires j <= i < |events| && Opens(windowNs, events, j) && Together(windowNs, events, j, i)
    ensures events[j].timestampNs != 0 ==> At(windowNs, events, i).start == events[j].timestampNs
    ensures At(windowNs, events, i).ips == Sources(events[j..i + 1])
  {
    hide At, Inside, Sources;
    LastSource(events, j, i);
    if i == j {
      if i == 0 {
        FirstWindow(windowNs, events);
      } else {
        WindowLaw(windowNs, events, i);
      }
    } else {
      WindowsAdvance(windowNs, events, j, i - 1);
      WindowsAdvance(windowNs, events, i - 1, i);
      WindowFromFirst(windowNs, events, j, i - 1);
      WindowLaw(windowNs, events, i);
    }
  }

  lemma LastSource(events: seq<Event>, j: nat, i: nat)
    requires j <= i < |events|
    ensures Sources(events[j..i + 1]) == Sources(events[j..i]) + [events[i].srcIp] && Sources(events[j..j]) == []
  {
    assert events[j..i + 1][..i - j] == events[j..i];
  }

  // Every window has a first event.
  lemma {:induction false} FirstOfWindow(windowNs: uint64, events: seq<Event>, i: nat) returns (j: nat)
    requires i < |events|
    ensures j <= i && Opens(windowNs, events, j) && Together(windowNs, events, j, i)
  {
    if i == 0 || !Together(windowNs, events, i - 1, i) {
      j := i;
    } else {
      j := FirstOfWindow(windowNs, events, i - 1);
    }
  }

  /** The exact count behind an alert: how often the source occurs from its window's first event on. */
  lemma CountFromFirst(windowNs: uint64, events: seq<Event>, j: nat, i: nat, x: uint32)
    requires j <= i < |events| && Opens(windowNs, events, j) && Together(windowNs, events, j, i)
    ensures TrueCount(windowNs, events, i, x) == multiset(Sources(events[j..i + 1]))[x]
  {
    WindowFromFirst(windowNs, events, j, i);
  }

  // The number of windows opened after the first, up to event `i`.
  ghost function Openings(windowNs: uint64, events: seq<Event>, i: nat): nat
    requires i < |events|
  {
    if i == 0 then 0
    else Openings(windowNs, events, i - 1) + if Opens(windowNs, events, i) then 1 else 0
  }

  lemma {:induction false} WindowNumber(windowNs: uint64, events: seq<Event>, i: nat)
    requires i < |events|
    ensures At(windowNs, events, i).id == Openings(windowNs, events, i)
  {
    hide At, Together;
    if i == 0 {
      FirstWindow(windowNs, events);
    } else {
      WindowNumber(windowNs, events, i - 1);
      WindowLaw(windowNs, events, i);
    }
  }

  /**
   Every alert of a run tells the number, source and time of an event and how many windows were opened
   before it; with the exact counter its frequency is always the threshold plus one.
   */
  lemma WhatAlertsTell(cfg: Config, events: seq<Event>, a: Alert)
    requires WellConfigured(cfg.algo) && a in RunAll(cfg, events).alerts
    ensures var i := a.eventIndex - 1;
      && 0 <= i < |events| && a.srcIp == events[i].srcIp && a.timestampNs == events[i].timestampNs
      && a.windowId == Openings(cfg.windowNs, events, i)
      && (cfg.algo == HashMap ==> a.freq == cfg.threshold + 1)
  {
    hide Due, At, RunAll, TrueCount, Answer;
    assert events[..|events|] == events;
    AlertsOfRun(cfg, events, |events|);
    var i := AlertsAreDue(cfg, events, |events|, a);
    WindowNumber(cfg.windowNs, events, i);
    if cfg.algo == HashMap {
      ExactAlertsAtThreshold(cfg, events, i);
      FreqIsCount(cfg, events, i);
    }
  }

  lemma FreqIsCount(cfg: Config, events: seq<Event>, i: nat)
    requires cfg.algo == HashMap && i < |events|
    ensures Freq(cfg, At(cfg.windowNs, events, i), events[i].srcIp) ==
      TrueCount(cfg.windowNs, events, i, events[i].srcIp)
  {
    hide At;
    KeyCount(At(cfg.windowNs, events, i).ips, events[i].srcIp);
  }
}
