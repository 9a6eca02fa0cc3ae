/** The stream generator's lines, as `json.dumps` writes them, and what both parsers read from them. */
module Generator {
  import opened Words
  import opened Numerals
  import opened Json
  import opened Ipv4
  import opened RoundTrip

  // A line with a blank after every colon and comma.
  function GeneratorLine(e: ToolEvent): string {
    "{" + ("\"src_ip\": \"" + (ToString(e.srcIp) + ("\"" + (", \"dst_ip\": \"" + (ToString(e.dstIp) + ("\"" +
    (", \"dst_port\": " + (Decimal(e.dstPort) + (", \"timestamp_ns\": " + (Decimal(e.timestampNs) + "}"))))))))))
  }

  const FIRST := Blanks("", "", " ", "")
  const NEXT := Blanks(" ", "", " ", "")

  function FieldsOfLine(e: ToolEvent): (fs: seq<Field>)
    ensures |fs| == 4
  {
    [ Field("src_ip", ToString(e.srcIp), true, FIRST), Field("dst_ip", ToString(e.dstIp), true, NEXT),
      Field("dst_port", Decimal(e.dstPort), false, NEXT), Field("timestamp_ns", Decimal(e.timestampNs), false, NEXT)]
  }

  lemma SpacedMembers(fs: seq<Field>, blank: string)
    requires fs != [] && fs[0].blanks == Blanks(blank, "", " ", "")
    ensures Members(fs) == blank + (Quoted(fs[0].key) + (":" + (" " + (Shown(fs[0]) + Rest(fs)))))
  {
    hide Quoted, Shown, Rest;
    Empty(":" + Json.Value(fs));
    Empty(Rest(fs));
  }

  lemma QuotedText(lead: string, blank: string, literal: string, key: string, value: string, rest: string)
    requires literal == lead + blank + "\"" + key + "\": \""
    ensures literal + (value + ("\"" + rest)) ==
      lead + (blank + (Quoted(key) + (":" + (" " + (Quoted(value) + rest)))))
  {
    OpenQuote(value, rest);
    var mid := value + ("\"" + rest);
    assert literal + mid == lead + (blank + (Quoted(key) + (":" + (" " + ("\"" + mid)))));
  }

  lemma PlainText(literal: string, key: string, rest: string)
    requires literal == ", \"" + key + "\": "
    ensures literal + rest == "," + (" " + (Quoted(key) + (":" + (" " + rest))))
  {
  }

  lemma NumbersOfLine(port: Field, ts: Field)
    requires port.key == "dst_port" && ts.key == "timestamp_ns"
    requires !port.quoted && !ts.quoted && port.blanks == ts.blanks == NEXT
    ensures ", \"dst_port\": " + (port.value + (", \"timestamp_ns\": " + (ts.value + "}"))) == "," + Members([port, ts])
  {
    hide Quoted, Members;
    var text := ", \"timestamp_ns\": " + (ts.value + "}");
    SpacedMembers([ts], " ");
    RestUnfold([ts]);
    PlainText(", \"timestamp_ns\": ", "timestamp_ns", ts.value + "}");
    SpacedMembers([port, ts], " ");
    RestUnfold([port, ts]);
    assert [port, ts][1..] == [ts];
    PlainText(", \"dst_port\": ", "dst_port", port.value + text);
  }

  lemma AddressOfLine(f: Field, lead: string, blank: string, literal: string, more: seq<Field>, rest: string)
    requires f.quoted && f.blanks == Blanks(blank, "", " ", "") && literal == lead + blank + "\"" + f.key + "\": \""
    requires more != [] && rest == "," + Members(more)
    ensures literal + (f.value + ("\"" + rest)) == lead + Members([f] + more)
  {
    hide Quoted, Members;
    var all := [f] + more;
    SpacedMembers(all, blank);
    RestUnfold(all);
    assert all[1..] == more;
    QuotedText(lead, blank, literal, f.key, f.value, rest);
  }

  lemma LineIsText(e: ToolEvent)
    ensures GeneratorLine(e) == Text(FieldsOfLine(e))
  {
    hide Decimal, ToString, Members, Quoted;
    var fs := FieldsOfLine(e);
    NumbersOfLine(fs[2], fs[3]);
    var numbers := "," + Members([fs[2], fs[3]]);
    AddressOfLine(fs[1], ",", " ", ", \"dst_ip\": \"", [fs[2], fs[3]], numbers);
    AddressOfLine(fs[0], "", "", "\"src_ip\": \"", [fs[1]] + [fs[2], fs[3]],
                  ", \"dst_ip\": \"" + (fs[1].value + ("\"" + numbers)));
    Empty(Members([fs[0]] + ([fs[1]] + [fs[2], fs[3]])));
    assert [fs[0]] + ([fs[1]] + [fs[2], fs[3]]) == fs;
  }

  // No field hides another one, or the missing one.
  lemma FieldPasses(e: ToolEvent, j: nat, key: string)
    requires j < 4 && key in ["src_ip", "dst_ip", "dst_port", "pid", "timestamp_ns"] && FieldsOfLine(e)[j].key != key
    ensures Passes(FieldsOfLine(e)[j], key)
  {
    hide ToString, Decimal;
    KeyStarts(key);
    KeyStarts(FieldsOfLine(e)[j].key);
    AddressIsPlain(e.srcIp);
    AddressIsPlain(e.dstIp);
  }

  lemma AddressIsPlain(ip: uint32)
    ensures NoQuote(ToString(ip)) && ToString(ip) != "" && IsDigit(ToString(ip)[0])
  {
    hide ByteAt, Dotted;
    DottedIsPlain(ByteAt(ip, 3), ByteAt(ip, 2), ByteAt(ip, 1), ByteAt(ip, 0));
  }

  lemma LineField(e: ToolEvent, i: nat)
    requires i < 4
    ensures ValueOf(GeneratorLine(e), FieldsOfLine(e)[i].key) == FieldsOfLine(e)[i].value
  {
    hide ToString, Decimal, ValueOf, GeneratorLine, Text, Passes;
    LineIsText(e);
    var fs := FieldsOfLine(e);
    AddressIsPlain(e.srcIp);
    AddressIsPlain(e.dstIp);
    KeyStarts(fs[i].key);
    forall j | 0 <= j < i
      ensures Passes(fs[j], fs[i].key)
    {
      FieldPasses(e, j, fs[i].key);
    }
    FieldIsFound(fs, i);
  }

  lemma NoPid(e: ToolEvent)
    ensures ValueOf(GeneratorLine(e), "pid") == ""
  {
    hide ToString, Decimal, ValueOf, GeneratorLine, Text, Passes;
    LineIsText(e);
    var fs := FieldsOfLine(e);
    KeyStarts("pid");
    forall j | 0 <= j < |fs|
      ensures Passes(fs[j], "pid")
    {
      FieldPasses(e, j, "pid");
    }
    FieldIsMissing(fs, "pid");
  }

  lemma GeneratorLineStarts(e: ToolEvent)
    ensures GeneratorLine(e) != "" && GeneratorLine(e)[0] == '{'
  {
  }

  /** The pipeline reads every line of the generator, with process number 0. */
  lemma PipelineReadsGenerator(e: ToolEvent)
    ensures PipelineEvent(GeneratorLine(e)) == Parsed(NetworkEvent(e.srcIp, e.dstIp, e.dstPort, 0, e.timestampNs))
  {
    hide GeneratorLine, ValueOf, ToString, Decimal, IpOf, NumberOr;
    LineField(e, 0);
    LineField(e, 1);
    LineField(e, 2);
    LineField(e, 3);
    NoPid(e);
    GeneratorLineStarts(e);
    AddressIsPlain(e.srcIp);
    AddressIsPlain(e.dstIp);
    ParseToString(PipelineReader, e.srcIp);
    ParseToString(PipelineReader, e.dstIp);
    NumberRead(e.dstPort, 0);
    NumberRead(e.timestampNs, 0);
    NumberMissing(0);
  }

  /** The tool reads every line of the generator as the event it was made from. */
  lemma ToolReadsGenerator(e: ToolEvent, now: uint64)
    ensures ToolLine(GeneratorLine(e), now) == Parsed(e)
  {
    hide GeneratorLine, ValueOf, ToString, Decimal, IpOf, NumberOr;
    LineField(e, 0);
    LineField(e, 1);
    LineField(e, 2);
    LineField(e, 3);
    GeneratorLineStarts(e);
    AddressIsPlain(e.srcIp);
    AddressIsPlain(e.dstIp);
    ParseToString(ToolReader, e.srcIp);
    ParseToString(ToolReader, e.dstIp);
    NumberRead(e.dstPort, 0);
    NumberRead(e.timestampNs, now);
  }
}
