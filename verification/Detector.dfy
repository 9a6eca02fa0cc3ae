/**
 `PortScanDetector`: any estimator behind a tumbling window and one alert per source and window.
 */
module Detector {
  import opened Words
  import opened Keys
  import opened Estimators

  datatype Event = Event(srcIp: uint32, timestampNs: uint64)

  datatype Alert = Alert(srcIp: uint32, freq: nat, timestampNs: uint64, windowId: nat, eventIndex: nat)

  datatype Config = Config(algo: Algo, threshold: uint64, windowNs: uint64)

  // The current window: its start (0 before the first), its number and the sources seen in it.
  datatype Window = Window(start: uint64, id: nat, ips: seq<uint32>)

  datatype State = State(window: Window, alerted: set<uint32>, alerts: seq<Alert>, total: nat)

  const INITIAL: State := State(Window(0, 0, []), {}, [], 0)

  // ---- The detector as a function of the events ----

  // Unsigned subtraction: an event from before the window's start also closes the window.
  predicate Expired(w: Window, now: uint64, windowNs: uint64) {
    w.start != 0 && Minus64(now, w.start) > windowNs
  }

  function Enter(w: Window, e: Event, windowNs: uint64): Window {
    var now := e.timestampNs;
    if w.start == 0 then Window(now, w.id, w.ips + [e.srcIp])
    else if Expired(w, now, windowNs) then Window(now, w.id + 1, [e.srcIp])
    else Window(w.start, w.id, w.ips + [e.srcIp])
  }

  ghost function Freq(cfg: Config, w: Window, x: uint32): nat
    requires WellConfigured(cfg.algo)
  {
    Answer(cfg.algo, KeysOf(w.ips), U32Key(x))
  }

  ghost function Next(cfg: Config, s: State, e: Event): State
    requires WellConfigured(cfg.algo)
  {
    var w := Enter(s.window, e, cfg.windowNs);
    var alerted := if Expired(s.window, e.timestampNs, cfg.windowNs) then {} else s.alerted;
    var freq := Freq(cfg, w, e.srcIp);
    if freq > cfg.threshold && e.srcIp !in alerted then
      State(w, alerted + {e.srcIp},
            s.alerts + [Alert(e.srcIp, freq, e.timestampNs, w.id, s.total + 1)], s.total + 1)
    else
      State(w, alerted, s.alerts, s.total + 1)
  }

  ghost function RunAll(cfg: Config, events: seq<Event>): State
    requires WellConfigured(cfg.algo)
  {
    if events == [] then INITIAL
    else Next(cfg, RunAll(cfg, events[..|events| - 1]), events[|events| - 1])
  }

  class PortScanDetector {
    const cfg: Config
    const estimator: Estimator
    var alertedInWindow: set<uint32>
    var alerts: seq<Alert>
    var totalEvents: nat
    var windowStartNs: uint64
    var windowId: nat
    ghost var ips: seq<uint32>

    ghost predicate Valid()
      reads this, estimator.Repr()
    {
      && this !in estimator.Repr()
      && WellConfigured(cfg.algo) && estimator.Valid(cfg.algo)
      && estimator.Stream() == KeysOf(ips)
    }

    ghost function Now(): State
      reads this
    {
      State(Window(windowStartNs, windowId, ips), alertedInWindow, alerts, totalEvents)
    }

    constructor (cfg: Config, estimator: Estimator)
      requires WellConfigured(cfg.algo) && estimator.Valid(cfg.algo) && estimator.Stream() == []
      ensures Valid() && Now() == INITIAL && this.cfg == cfg && this.estimator == estimator
    {
      this.cfg, this.estimator := cfg, estimator;
      alertedInWindow, alerts, totalEvents := {}, [], 0;
      windowStartNs, windowId, ips := 0, 0, [];
    }

    method MaybeResetWindow(now: uint64)
      requires Valid()
      modifies this`windowStartNs, this`windowId, this`alertedInWindow, this`ips, estimator.Repr()
      ensures Valid()
      ensures windowStartNs ==
        if old(windowStartNs) == 0 || old(Expired(Now().window, now, cfg.windowNs)) then now else old(windowStartNs)
      ensures if old(Expired(Now().window, now, cfg.windowNs))
        then windowId == old(windowId) + 1 && ips == [] && alertedInWindow == {}
        else windowId == old(windowId) && ips == old(ips) && alertedInWindow == old(alertedInWindow)
    {
      if windowStartNs == 0 {
        windowStartNs := now;
        return;
      }
      if Minus64(now, windowStartNs) > cfg.windowNs {
        estimator.Reset(cfg.algo);
        alertedInWindow, ips := {}, [];
        windowStartNs := now;
        windowId := windowId + 1;
      }
    }

    // Counts one more event of the source in the current window.
    method Measure(x: uint32) returns (freq: nat)
      requires Valid()
      modifies this`ips, estimator.Repr()
      ensures Valid() && ips == old(ips) + [x]
      ensures freq == Answer(cfg.algo, KeysOf(ips), U32Key(x))
    {
      hide Answer, WellConfigured, U32Key, KeysOf;
      KeysOfSnoc(ips, x);
      estimator.RecordU32(cfg.algo, x);
      ips := ips + [x];
      freq := estimator.EstimateU32(cfg.algo, x);
    }

    method Process(e: Event) returns (emitted: bool)
      requires Valid()
      modifies this, estimator.Repr()
      ensures Valid() && Now() == Next(cfg, old(Now()), e)
      ensures emitted <==> |alerts| == |old(alerts)| + 1
    {
      hide Answer, WellConfigured, U32Key, KeysOf, Estimator.Valid, Estimator.Stream;
      MaybeResetWindow(e.timestampNs);
      var freq := Measure(e.srcIp);
      assert Window(windowStartNs, windowId, ips) == Enter(old(Now()).window, e, cfg.windowNs);
      totalEvents := totalEvents + 1;
      emitted := false;
      if freq > cfg.threshold && e.srcIp !in alertedInWindow {
        alertedInWindow := alertedInWindow + {e.srcIp};
        alerts := alerts + [Alert(e.srcIp, freq, e.timestampNs, windowId, totalEvents)];
        emitted := true;
      }
    }

    // All events in order, as the driver feeds them.
    method ProcessAll(events: seq<Event>)
      requires Valid() && Now() == INITIAL
      modifies this, estimator.Repr()
      ensures Valid() && Now() == RunAll(cfg, events)
    {
      for i := 0 to |events|
        invariant Valid() && Now() == RunAll(cfg, events[..i])
      {
        assert events[..i + 1][..i] == events[..i];
        var emitted := Process(events[i]);
      }
      assert events[..|events|] == events;
    }
  }
}
