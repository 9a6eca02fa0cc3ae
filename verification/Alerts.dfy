/** The alerts of the pipeline, with their severities. */
module Alerts {
  import opened Words
  import opened Ipv4

  datatype Severity = Low | Medium | High | Critical

  datatype SeverityRule = SeverityRule(kind: string, severity: string)

  function ParseSeverity(s: string, fallback: Severity): Severity {
    if s == "low" then Low
    else if s == "medium" then Medium
    else if s == "high" then High
    else if s == "critical" then Critical
    else fallback
  }

  // The first rule for the kind decides, else the built-in severity.
  function SeverityFor(kind: string, rules: seq<SeverityRule>): Severity {
    if rules == [] then
      if kind == "blast_radius" || kind == "scc_anomaly" then High else Medium
    else if rules[0].kind == kind then ParseSeverity(rules[0].severity, Medium)
    else SeverityFor(kind, rules[1..])
  }

  // What the details of an alert report, as data.
  datatype Details =
    | Frequency(freq: nat, threshold: int, srcLabel: int)
    | Reachable(maxHops: int, hops: map<uint32, int>)
    | Members(members: seq<uint32>)

  datatype Alert = Alert(
    kind: string, source: string, details: Details, timestampNs: uint64, severity: Severity,
    nodeName: string, namespace: string, tags: seq<string>)

  // What all alerts of one engine have in common.
  datatype Envelope = Envelope(rules: seq<SeverityRule>, nodeName: string, namespace: string)

  function Sealed(env: Envelope, kind: string, source: uint32, details: Details, ts: uint64, tags: seq<string>): Alert {
    Alert(kind, ToString(source), details, ts, SeverityFor(kind, env.rules), env.nodeName, env.namespace, tags)
  }

  ghost predicate IsFirstRule(rules: seq<SeverityRule>, kind: string, i: int) {
    0 <= i < |rules| && rules[i].kind == kind && forall j :: 0 <= j < i ==> rules[j].kind != kind
  }

  /** The first rule that names a kind overrides its severity; without one the default holds. */
  lemma {:induction false} FirstRuleDecides(kind: string, rules: seq<SeverityRule>)
    ensures forall i :: IsFirstRule(rules, kind, i) ==>
        SeverityFor(kind, rules) == ParseSeverity(rules[i].severity, Medium)
    ensures (forall i :: 0 <= i < |rules| ==> rules[i].kind != kind) ==>
        SeverityFor(kind, rules) == if kind == "blast_radius" || kind == "scc_anomaly" then High else Medium
  {
    if rules != [] && rules[0].kind != kind {
      FirstRuleDecides(kind, rules[1..]);
      forall i | IsFirstRule(rules, kind, i)
        ensures IsFirstRule(rules[1..], kind, i - 1) && rules[1..][i - 1] == rules[i]
      {
        assert forall j :: 0 <= j < i - 1 ==> rules[1..][j] == rules[j + 1];
      }
      assert forall i :: 0 <= i < |rules[1..]| ==> rules[1..][i] == rules[i + 1];
    }
  }

  /** The four words name the four severities; any other word gives the fallback. */
  lemma SeverityWords(s: string, fallback: Severity)
    ensures ParseSeverity("low", fallback) == Low && ParseSeverity("medium", fallback) == Medium
    ensures ParseSeverity("high", fallback) == High && ParseSeverity("critical", fallback) == Critical
    ensures s !in ["low", "medium", "high", "critical"] ==> ParseSeverity(s, fallback) == fallback
  {
    assert "low" != "medium" && |"high"| == 4 && |"critical"| == 8;
  }
}
