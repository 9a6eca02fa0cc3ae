/** The collector's output lines, and what the pipeline and the port-scan tool read from them. */
module RoundTrip {
  import opened Words
  import opened Numerals
  import opened Json
  import opened Ipv4

  // An event as the kernel side hands it over, with addresses in network order, and as the
  // pipeline keeps it, with addresses in host order.
  datatype NetworkEvent = NetworkEvent(
    srcIp: uint32, dstIp: uint32, dstPort: uint16, pid: uint32, timestampNs: uint64)

  datatype ToolEvent = ToolEvent(srcIp: uint32, dstIp: uint32, dstPort: uint16, timestampNs: uint64)

  datatype Outcome<T> =
    | Skipped
    | Thrown
    | Parsed(event: T)

  // ---- The collector ----

  // What `handle_event` prints, without the newline.
  function CollectorLine(e: NetworkEvent): string {
    "{\"src_ip\":\"" + (Ntop(e.srcIp) + ("\",\"dst_ip\":\"" + (Ntop(e.dstIp) +
    ("\",\"dst_port\":" + (Decimal(e.dstPort) + (",\"pid\":" + (Decimal(e.pid) +
    (",\"timestamp_ns\":" + (Decimal(e.timestampNs) + "}")))))))))
  }

  // ---- The parsers ----

  // A number field: 0 when it is missing or empty.
  function NumberOr(text: string, missing: uint64): Option<uint64> {
    if text == "" then Some(missing) else Stoul(text)
  }

  function PipelineEvent(line: string): Outcome<NetworkEvent> {
    if line == "" || line[0] != '{' then Skipped
    else
      var src, dst := ValueOf(line, "src_ip"), ValueOf(line, "dst_ip");
      if src == "" || dst == "" then Skipped
      else
        var a, b := IpOf(PipelineReader, src), IpOf(PipelineReader, dst);
        var port, pid := NumberOr(ValueOf(line, "dst_port"), 0), NumberOr(ValueOf(line, "pid"), 0);
        var ts := NumberOr(ValueOf(line, "timestamp_ns"), 0);
        if a == None || b == None || port == None || pid == None || ts == None then Thrown
        else
          Parsed(NetworkEvent(a.value, b.value, port.value % TWO_TO_THE_16, pid.value % TWO_TO_THE_32, ts.value))
  }

  // `now` stands for the clock, which replaces a missing timestamp.
  function ToolLine(line: string, now: uint64): Outcome<ToolEvent> {
    if line == "" || line[0] != '{' then Skipped
    else
      var src, dst := ValueOf(line, "src_ip"), ValueOf(line, "dst_ip");
      if src == "" || dst == "" then Skipped
      else
        var a, b := IpOf(ToolReader, src), IpOf(ToolReader, dst);
        var port, ts := NumberOr(ValueOf(line, "dst_port"), 0), NumberOr(ValueOf(line, "timestamp_ns"), now);
        if a == None || b == None || port == None || ts == None then Thrown
        else Parsed(ToolEvent(a.value, b.value, port.value % TWO_TO_THE_16, ts.value))
  }

  // The pipeline's `parse_event`.
  method ParseEvent(line: string) returns (r: Outcome<NetworkEvent>)
    ensures r == PipelineEvent(line)
  {
    hide ValueOf, IpOf, NumberOr;
    if line == "" || line[0] != '{' { return Skipped; }
    var src := JsonField(line, "src_ip");
    var dst := JsonField(line, "dst_ip");
    var port := JsonField(line, "dst_port");
    var pid := JsonField(line, "pid");
    var ts := JsonField(line, "timestamp_ns");
    if src == "" || dst == "" { return Skipped; }
    var srcIp := ParseIp(src);
    var dstIp := ParseIp(dst);
    if srcIp == None || dstIp == None { return Thrown; }
    var p, q, t := NumberOr(port, 0), NumberOr(pid, 0), NumberOr(ts, 0);
    if p == None || q == None || t == None { return Thrown; }
    r := Parsed(NetworkEvent(srcIp.value, dstIp.value, p.value % TWO_TO_THE_16, q.value % TWO_TO_THE_32, t.value));
  }

  // The tool's `parse_json`.
  method ParseJson(line: string, now: uint64) returns (r: Outcome<ToolEvent>)
    ensures r == ToolLine(line, now)
  {
    hide ValueOf, IpOf, NumberOr;
    if line == "" || line[0] != '{' { return Skipped; }
    var src := JsonField(line, "src_ip");
    var dst := JsonField(line, "dst_ip");
    var port := JsonField(line, "dst_port");
    var ts := JsonField(line, "timestamp_ns");
    if src == "" || dst == "" { return Skipped; }
    var srcIp := ParseIpv4(src);
    var dstIp := ParseIpv4(dst);
    if srcIp == None || dstIp == None { return Thrown; }
    var p, t := NumberOr(port, 0), NumberOr(ts, now);
    if p == None || t == None { return Thrown; }
    r := Parsed(ToolEvent(srcIp.value, dstIp.value, p.value % TWO_TO_THE_16, t.value));
  }

  // ---- The round trip ----

  // The line as a flat object.
  function FieldsOf(e: NetworkEvent): (fs: seq<Field>)
    ensures |fs| == 5
  {
    [ Field("src_ip", Ntop(e.srcIp), true, TIGHT), Field("dst_ip", Ntop(e.dstIp), true, TIGHT),
      Field("dst_port", Decimal(e.dstPort), false, TIGHT), Field("pid", Decimal(e.pid), false, TIGHT),
      Field("timestamp_ns", Decimal(e.timestampNs), false, TIGHT)]
  }

  // The printer's text of a field in front of the text of others, as members of an object.
  lemma ConsPlain(literal: string, key: string, value: string, fs: seq<Field>, rest: string)
    requires literal == ",\"" + key + "\":" && fs != [] && rest == "," + Members(fs)
    ensures literal + (value + rest) == "," + Members([Field(key, value, false, TIGHT)] + fs)
  {
    hide Members;
    var all := [Field(key, value, false, TIGHT)] + fs;
    TightMembers(all);
    assert all[1..] == fs;
    assert literal + (value + rest) == "," + (Quoted(key) + (":" + (value + rest)));
  }

  lemma OpenQuote(value: string, rest: string)
    ensures Quoted(value) + rest == "\"" + (value + ("\"" + rest))
  {
  }

  lemma Regroup(lead: string, literal: string, key: string, mid: string)
    requires literal == lead + "\"" + key + "\":\""
    ensures literal + mid == lead + (Quoted(key) + (":" + ("\"" + mid)))
  {
  }

  lemma ConsQuoted(lead: string, literal: string, key: string, value: string, fs: seq<Field>, rest: string)
    requires literal == lead + "\"" + key + "\":\"" && fs != [] && rest == "," + Members(fs)
    ensures literal + (value + ("\"" + rest)) == lead + Members([Field(key, value, true, TIGHT)] + fs)
  {
    hide Members, Rest, Quoted;
    var all := [Field(key, value, true, TIGHT)] + fs;
    TightMembers(all);
    assert all[1..] == fs;
    OpenQuote(value, rest);
    Regroup(lead, literal, key, value + ("\"" + rest));
  }

  lemma LastPlain(literal: string, key: string, value: string)
    requires literal == ",\"" + key + "\":"
    ensures literal + (value + "}") == "," + Members([Field(key, value, false, TIGHT)])
  {
    hide Members;
    TightMembers([Field(key, value, false, TIGHT)]);
    assert literal + (value + "}") == "," + (Quoted(key) + (":" + (value + "}")));
  }

  // The three numbers of the line.
  function NumbersText(port: string, pid: string, ts: string): string {
    ",\"dst_port\":" + (port + (",\"pid\":" + (pid + (",\"timestamp_ns\":" + (ts + "}")))))
  }

  lemma NumbersAreText(port: string, pid: string, ts: string)
    ensures NumbersText(port, pid, ts) ==
      "," + Members([Field("dst_port", port, false, TIGHT), Field("pid", pid, false, TIGHT),
                     Field("timestamp_ns", ts, false, TIGHT)])
  {
    hide Members;
    var c, d := Field("dst_port", port, false, TIGHT), Field("pid", pid, false, TIGHT);
    var e := Field("timestamp_ns", ts, false, TIGHT);
    LastPlain(",\"timestamp_ns\":", "timestamp_ns", ts);
    ConsPlain(",\"pid\":", "pid", pid, [e], ",\"timestamp_ns\":" + (ts + "}"));
    assert [d] + [e] == [d, e];
    ConsPlain(",\"dst_port\":", "dst_port", port, [d, e], ",\"pid\":" + (pid + (",\"timestamp_ns\":" + (ts + "}"))));
    assert [c] + [d, e] == [c, d, e];
  }

  // The two addresses in front of them.
  function AddressesText(src: string, dst: string, numbers: string): string {
    "{\"src_ip\":\"" + (src + ("\"" + (",\"dst_ip\":\"" + (dst + ("\"" + numbers)))))
  }

  lemma AddressesAreText(src: string, dst: string, fs: seq<Field>, numbers: string)
    requires fs != [] && numbers == "," + Members(fs)
    ensures AddressesText(src, dst, numbers) ==
      "{" + Members([Field("src_ip", src, true, TIGHT)] + ([Field("dst_ip", dst, true, TIGHT)] + fs))
  {
    hide Members;
    var b := Field("dst_ip", dst, true, TIGHT);
    ConsQuoted(",", ",\"dst_ip\":\"", "dst_ip", dst, fs, numbers);
    ConsQuoted("{", "{\"src_ip\":\"", "src_ip", src, [b] + fs, ",\"dst_ip\":\"" + (dst + ("\"" + numbers)));
  }

  lemma CollectorParts(e: NetworkEvent)
    ensures CollectorLine(e) == AddressesText(Ntop(e.srcIp), Ntop(e.dstIp),
                                              NumbersText(Decimal(e.dstPort), Decimal(e.pid), Decimal(e.timestampNs)))
  {
    hide Ntop, Decimal;
    var n2 := Decimal(e.pid) + (",\"timestamp_ns\":" + (Decimal(e.timestampNs) + "}"));
    var n1 := Decimal(e.dstPort) + (",\"pid\":" + n2);
    var n := ",\"dst_port\":" + n1;
    ClosingQuote(",\"dst_port\":", n1);
    ClosingQuote(",\"dst_ip\":\"", Ntop(e.dstIp) + ("\"" + n));
  }

  lemma CollectorIsText(e: NetworkEvent)
    ensures CollectorLine(e) == Text(FieldsOf(e))
  {
    hide Decimal, Ntop, Members, NumbersText, AddressesText, CollectorLine;
    var fs := FieldsOf(e);
    CollectorParts(e);
    NumbersAreText(fs[2].value, fs[3].value, fs[4].value);
    AddressesAreText(fs[0].value, fs[1].value, fs[2..], NumbersText(fs[2].value, fs[3].value, fs[4].value));
    assert [fs[2], fs[3], fs[4]] == fs[2..];
    assert [fs[0]] + ([fs[1]] + fs[2..]) == fs;
  }

  lemma ClosingQuote(literal: string, rest: string)
    ensures "\"" + (literal + rest) == ("\"" + literal) + rest
  {
  }

  lemma DottedIsPlain(a: uint32, b: uint32, c: uint32, d: uint32)
    ensures var s := Dotted(a, b, c, d); NoQuote(s) && s != "" && IsDigit(s[0])
  {
    hide Decimal;
    var s1 := Decimal(a) + ".";
    var s2 := s1 + Decimal(b) + ".";
    var s3 := s2 + Decimal(c) + ".";
    assert Dotted(a, b, c, d) == s3 + Decimal(d);
    assert NoQuote(s1) && NoQuote(s2) && NoQuote(s3);
    assert Dotted(a, b, c, d)[0] == Decimal(a)[0];
  }

  lemma NtopIsPlain(ip: uint32)
    ensures NoQuote(Ntop(ip)) && Ntop(ip) != "" && IsDigit(Ntop(ip)[0])
  {
    hide ByteAt, Dotted;
    DottedIsPlain(ByteAt(ip, 0), ByteAt(ip, 1), ByteAt(ip, 2), ByteAt(ip, 3));
  }

  // Every field of the line is read back as it was printed.
  lemma FieldRead(e: NetworkEvent, i: nat)
    requires i < 5
    ensures ValueOf(CollectorLine(e), FieldsOf(e)[i].key) == FieldsOf(e)[i].value
  {
    hide Ntop, Decimal, ValueOf, CollectorLine, Text;
    CollectorIsText(e);
    var fs := FieldsOf(e);
    NtopIsPlain(e.srcIp);
    NtopIsPlain(e.dstIp);
    KeyStarts(fs[i].key);
    forall j | 0 <= j < i
      ensures Passes(fs[j], fs[i].key)
    {
      KeyStarts(fs[j].key);
    }
    FieldIsFound(fs, i);
  }

  lemma KeyStarts(key: string)
    requires key in ["src_ip", "dst_ip", "dst_port", "pid", "timestamp_ns"]
    ensures IsKey(key) && !IsDigit(key[0])
  {
  }

  // The event with its addresses in host order.
  function Received(e: NetworkEvent): NetworkEvent {
    e.(srcIp := ByteSwap(e.srcIp), dstIp := ByteSwap(e.dstIp))
  }

  lemma NumberRead(n: uint64, missing: uint64)
    ensures NumberOr(Decimal(n), missing) == Some(n)
  {
    StoulOfDecimal(n);
  }

  lemma NumberMissing(missing: uint64)
    ensures NumberOr("", missing) == Some(missing)
  {
  }

  lemma LineStarts(e: NetworkEvent)
    ensures CollectorLine(e) != "" && CollectorLine(e)[0] == '{'
  {
  }

  /** The pipeline reads every line of the collector as the event with host-order addresses. */
  lemma PipelineReadsCollector(e: NetworkEvent)
    ensures PipelineEvent(CollectorLine(e)) == Parsed(Received(e))
  {
    hide CollectorLine, ValueOf, Ntop, Decimal, IpOf, NumberOr, ByteSwap;
    FieldRead(e, 0);
    FieldRead(e, 1);
    FieldRead(e, 2);
    FieldRead(e, 3);
    FieldRead(e, 4);
    LineStarts(e);
    NtopIsPlain(e.srcIp);
    NtopIsPlain(e.dstIp);
    ParseNtop(PipelineReader, e.srcIp);
    ParseNtop(PipelineReader, e.dstIp);
    NumberRead(e.dstPort, 0);
    NumberRead(e.pid, 0);
    NumberRead(e.timestampNs, 0);
  }

  /** The port-scan tool reads the fields it keeps from every line of the collector. */
  lemma ToolReadsCollector(e: NetworkEvent, now: uint64)
    ensures var r := Received(e);
      ToolLine(CollectorLine(e), now) == Parsed(ToolEvent(r.srcIp, r.dstIp, r.dstPort, r.timestampNs))
  {
    hide CollectorLine, ValueOf, Ntop, Decimal, IpOf, NumberOr, ByteSwap;
    FieldRead(e, 0);
    FieldRead(e, 1);
    FieldRead(e, 2);
    FieldRead(e, 4);
    LineStarts(e);
    NtopIsPlain(e.srcIp);
    NtopIsPlain(e.dstIp);
    ParseNtop(ToolReader, e.srcIp);
    ParseNtop(ToolReader, e.dstIp);
    NumberRead(e.dstPort, 0);
    NumberRead(e.timestampNs, now);
  }

  /** Different events give different lines. */
  lemma CollectorLineInjective(a: NetworkEvent, b: NetworkEvent)
    requires CollectorLine(a) == CollectorLine(b)
    ensures a == b
  {
    hide CollectorLine, PipelineEvent, ByteSwap;
    PipelineReadsCollector(a);
    PipelineReadsCollector(b);
    ByteSwapTwice(a.srcIp);
    ByteSwapTwice(b.srcIp);
    ByteSwapTwice(a.dstIp);
    ByteSwapTwice(b.dstIp);
  }

  // ---- Whole streams ----

  // What the loop reads from its lines: the events up to the first line that makes it throw.
  datatype Reading = Reading(events: seq<NetworkEvent>, thrown: bool)

  function EventsIn(lines: seq<string>): Reading {
    if lines == [] then Reading([], false)
    else
      var before := EventsIn(lines[..|lines| - 1]);
      if before.thrown then before
      else
        match PipelineEvent(lines[|lines| - 1])
        case Skipped => before
        case Thrown => Reading(before.events, true)
        case Parsed(e) => Reading(before.events + [e], false)
  }

  // The loop around `parse_event`.
  method ReadAll(lines: seq<string>) returns (r: Reading)
    ensures r == EventsIn(lines)
  {
    hide PipelineEvent;
    var read: seq<NetworkEvent> := [];
    for i := 0 to |lines|
      invariant EventsIn(lines[..i]) == Reading(read, false)
    {
      hide PipelineEvent;
      assert lines[..i + 1][..i] == lines[..i];
      var outcome := ParseEvent(lines[i]);
      match outcome
      case Skipped =>
      case Thrown =>
        ThrowsForGood(lines, i + 1);
        return Reading(read, true);
      case Parsed(e) => read := read + [e];
    }
    assert lines[..|lines|] == lines;
    r := Reading(read, false);
  }

  lemma {:induction false} ThrowsForGood(lines: seq<string>, n: nat)
    requires n <= |lines| && EventsIn(lines[..n]).thrown
    ensures EventsIn(lines) == EventsIn(lines[..n])
    decreases |lines| - n
  {
    hide PipelineEvent;
    if n == |lines| {
      assert lines[..n] == lines;
    } else {
      assert lines[..n + 1][..n] == lines[..n];
      ThrowsForGood(lines, n + 1);
    }
  }

  function CollectorLines(events: seq<NetworkEvent>): (lines: seq<string>)
    ensures |lines| == |events|
  {
    seq(|events|, i requires 0 <= i < |events| => CollectorLine(events[i]))
  }

  function ReceivedAll(events: seq<NetworkEvent>): (r: seq<NetworkEvent>)
    ensures |r| == |events|
  {
    seq(|events|, i requires 0 <= i < |events| => Received(events[i]))
  }

  /** A stream of the collector's lines is read as its events, in order, none lost or invented. */
  lemma {:induction false} StreamIsReceived(events: seq<NetworkEvent>)
    ensures EventsIn(CollectorLines(events)) == Reading(ReceivedAll(events), false)
  {
    hide CollectorLine, PipelineEvent, Received;
    if events == [] {
    } else {
      var n := |events| - 1;
      StreamIsReceived(events[..n]);
      assert CollectorLines(events)[..n] == CollectorLines(events[..n]);
      assert ReceivedAll(events) == ReceivedAll(events[..n]) + [Received(events[n])];
      PipelineReadsCollector(events[n]);
    }
  }
}
