/** The one-line JSON field search shared by the pipeline and the port-scan tool. */
module Json {
  import opened Words

  // ---- The searches of `std::string`, from a position on ----

  function Find(s: string, needle: string, from: nat): (r: Option<nat>)
    requires from <= |s|
    ensures r.Some? ==> from <= r.value && r.value + |needle| <= |s|
    decreases |s| - from
  {
    if needle <= s[from..] then Some(from)
    else if from == |s| then None
    else Find(s, needle, from + 1)
  }

  function FindFirstOf(s: string, chars: set<char>, from: nat): (r: nat)
    requires from <= |s|
    ensures from <= r <= |s|
    decreases |s| - from
  {
    if from == |s| || s[from] in chars then from else FindFirstOf(s, chars, from + 1)
  }

  function FindFirstNotOf(s: string, chars: set<char>, from: nat): (r: nat)
    requires from <= |s|
    ensures from <= r <= |s|
    decreases |s| - from
  {
    if from == |s| || s[from] !in chars then from else FindFirstNotOf(s, chars, from + 1)
  }

  const BLANKS: set<char> := {' ', '\t'}
  const STOPS: set<char> := {',', '}', ' ', '\t', '\n'}

  function Quoted(s: string): string {
    "\"" + s + "\""
  }

  // ---- The same by what is left of the string ----

  // What follows the first occurrence of `needle`.
  function After(s: string, needle: string): Option<string> {
    if needle <= s then Some(s[|needle|..])
    else if s == "" then None
    else After(s[1..], needle)
  }

  function UpTo(s: string, chars: set<char>): string {
    if s == "" || s[0] in chars then "" else [s[0]] + UpTo(s[1..], chars)
  }

  function DropBlanks(s: string): string {
    if s != "" && s[0] in BLANKS then DropBlanks(s[1..]) else s
  }

  // The text of the value that follows a colon.
  function ValueAt(s: string): string {
    var t := DropBlanks(s);
    if t == "" then ""
    else if t[0] == '"' then
      if After(t[1..], "\"") == None then "" else UpTo(t[1..], {'"'})
    else UpTo(t, STOPS)
  }

  function ValueOf(json: string, key: string): string {
    match After(json, Quoted(key))
    case None => ""
    case Some(rest) =>
      match After(rest, ":")
      case None => ""
      case Some(value) => ValueAt(value)
  }

  lemma {:induction false} FindIsAfter(s: string, needle: string, from: nat)
    requires from <= |s|
    ensures After(s[from..], needle) == match Find(s, needle, from)
      case None => None
      case Some(p) => Some(s[p + |needle|..])
    decreases |s| - from
  {
    if needle <= s[from..] {
    } else if from == |s| {
    } else {
      FindIsAfter(s, needle, from + 1);
      assert s[from..][1..] == s[from + 1..];
    }
  }

  lemma {:induction false} FindFirstNotOfBlanks(s: string, from: nat)
    requires from <= |s|
    ensures DropBlanks(s[from..]) == s[FindFirstNotOf(s, BLANKS, from)..]
    decreases |s| - from
  {
    if from < |s| && s[from] in BLANKS {
      FindFirstNotOfBlanks(s, from + 1);
      assert s[from..][1..] == s[from + 1..];
    }
  }

  lemma {:induction false} FindFirstOfIsUpTo(s: string, chars: set<char>, from: nat)
    requires from <= |s|
    ensures UpTo(s[from..], chars) == s[from..FindFirstOf(s, chars, from)]
    decreases |s| - from
  {
    if from < |s| && s[from] !in chars {
      FindFirstOfIsUpTo(s, chars, from + 1);
      assert s[from..][1..] == s[from + 1..];
    }
  }

  // Finding a quote is finding the first of the set that holds only the quote.
  lemma {:induction false} FindQuote(s: string, from: nat)
    requires from <= |s|
    ensures Find(s, "\"", from).Some? ==> Find(s, "\"", from).value == FindFirstOf(s, {'"'}, from)
    decreases |s| - from
  {
    if from < |s| {
      FindQuote(s, from + 1);
      assert "\"" <= s[from..] <==> s[from] == '"';
    }
  }

  // The value that starts at `pos`.
  method ReadValue(json: string, pos: nat) returns (v: string)
    requires pos <= |json|
    ensures v == ValueAt(json[pos..])
  {
    hide Find, FindFirstOf, FindFirstNotOf, UpTo, DropBlanks, After;
    FindFirstNotOfBlanks(json, pos);
    var start := FindFirstNotOf(json, BLANKS, pos);
    if start == |json| { return ""; }
    assert json[start..][1..] == json[start + 1..];
    if json[start] == '"' {
      FindIsAfter(json, "\"", start + 1);
      FindQuote(json, start + 1);
      FindFirstOfIsUpTo(json, {'"'}, start + 1);
      var end := Find(json, "\"", start + 1);
      if end == None { return ""; }
      return json[start + 1..end.value];
    }
    FindFirstOfIsUpTo(json, STOPS, start);
    var end := FindFirstOf(json, STOPS, start);
    return json[start..end];
  }

  // `json_string_value` and `json_field`: a position moves through the line.
  method JsonField(json: string, key: string) returns (v: string)
    ensures v == ValueOf(json, key)
  {
    hide Find, After, ValueAt;
    var needle := "\"" + key + "\"";
    FindIsAfter(json, needle, 0);
    assert json[0..] == json;
    var found := Find(json, needle, 0);
    if found == None { return ""; }
    var pos := found.value + |needle|;
    FindIsAfter(json, ":", pos);
    found := Find(json, ":", pos);
    if found == None { return ""; }
    v := ReadValue(json, found.value + 1);
  }

  // ---- Flat objects ----

  // The blanks before the key, before and after the colon, and after the value.
  datatype Blanks = Blanks(beforeKey: string, beforeColon: string, afterColon: string, afterValue: string)

  const TIGHT := Blanks("", "", "", "")

  datatype Field = Field(key: string, value: string, quoted: bool, blanks: Blanks)

  function Shown(f: Field): string {
    if f.quoted then Quoted(f.value) else f.value
  }

  // What follows the colon of the first field.
  function Value(fs: seq<Field>): string
    requires fs != []
    decreases |fs|, 1
  {
    fs[0].blanks.afterColon + (Shown(fs[0]) + (fs[0].blanks.afterValue + Rest(fs)))
  }

  // What follows its key.
  function Tail(fs: seq<Field>): string
    requires fs != []
    decreases |fs|, 2
  {
    fs[0].blanks.beforeColon + (":" + Value(fs))
  }

  function Rest(fs: seq<Field>): string
    requires fs != []
    decreases |fs|, 0
  {
    if |fs| == 1 then "}" else "," + Members(fs[1..])
  }

  // The fields and the closing brace.
  function Members(fs: seq<Field>): string
    requires fs != []
    decreases |fs|, 3
  {
    fs[0].blanks.beforeKey + (Quoted(fs[0].key) + Tail(fs))
  }

  function Text(fs: seq<Field>): string
    requires fs != []
  {
    "{" + Members(fs)
  }

  lemma TightMembers(fs: seq<Field>)
    requires fs != [] && fs[0].blanks == TIGHT
    ensures Members(fs) == Quoted(fs[0].key) + (":" + (Shown(fs[0]) + Rest(fs)))
    ensures |fs| > 1 ==> Rest(fs) == "," + Members(fs[1..])
  {
    hide Quoted, Shown, Rest;
    Empty(Quoted(fs[0].key) + Tail(fs));
    Empty(":" + Value(fs));
    Empty(Shown(fs[0]) + ("" + Rest(fs)));
    Empty(Rest(fs));
    RestUnfold(fs);
  }

  lemma RestUnfold(fs: seq<Field>)
    requires fs != []
    ensures Rest(fs) == if |fs| == 1 then "}" else "," + Members(fs[1..])
  {
  }

  lemma Empty(s: string)
    ensures "" + s == s
  {
  }

  ghost predicate NoQuote(s: string) {
    forall i :: 0 <= i < |s| ==> s[i] != '"'
  }

  ghost predicate IsBlank(s: string) {
    forall i :: 0 <= i < |s| ==> s[i] in BLANKS
  }

  ghost predicate AreBlank(b: Blanks) {
    IsBlank(b.beforeKey) && IsBlank(b.beforeColon) && IsBlank(b.afterColon) && IsBlank(b.afterValue)
  }

  // Keys are plain words.
  ghost predicate IsKey(key: string) {
    NoQuote(key) && key != "" && forall i :: 0 <= i < |key| ==> key[i] != ':' && key[i] != ','
  }

  // The field does not get in the way of a search for `key`.
  ghost predicate Passes(f: Field, key: string) {
    IsKey(f.key) && f.key != key && NoQuote(f.value) && (f.quoted ==> f.value != key) && AreBlank(f.blanks)
  }

  ghost predicate Readable(f: Field) {
    && NoQuote(f.value)
    && (!f.quoted ==> f.value != "" && forall i :: 0 <= i < |f.value| ==> f.value[i] !in STOPS)
    && AreBlank(f.blanks)
  }

  lemma {:induction false} SkipPlain(a: string, t: string, key: string)
    requires NoQuote(a)
    ensures After(a + t, Quoted(key)) == After(t, Quoted(key))
  {
    if a == "" {
      assert a + t == t;
    } else {
      SkipPlain(a[1..], t, key);
      assert (a + t)[1..] == a[1..] + t;
      assert Quoted(key)[0] == '"' && (a + t)[0] == a[0];
    }
  }

  lemma QuotedPrefix(b: string, rest: string, key: string)
    requires NoQuote(b) && NoQuote(key)
    ensures Quoted(key) <= Quoted(b) + rest <==> b == key
  {
    var t, needle := Quoted(b) + rest, Quoted(key);
    assert t[|b| + 1] == '"' && needle[|key| + 1] == '"';
    assert forall i :: 1 <= i <= |b| ==> t[i] == b[i - 1] && t[i] != '"';
    assert forall i :: 1 <= i <= |key| ==> needle[i] == key[i - 1] && needle[i] != '"';
    if needle <= t {
      assert forall i :: 0 <= i < |needle| ==> needle[i] == t[i];
      assert t[1..|b| + 1] == b && needle[1..|key| + 1] == key;
    }
  }

  // A search stops at a quote exactly when the key is what stands between it and the next one.
  lemma AtQuote(b: string, rest: string, key: string)
    requires NoQuote(b) && NoQuote(key)
    ensures After(Quoted(b) + rest, Quoted(key)) == if b == key then Some(rest) else After("\"" + rest, Quoted(key))
  {
    var t := Quoted(b) + rest;
    QuotedPrefix(b, rest, key);
    if b == key {
      assert t[|Quoted(key)|..] == rest;
    } else {
      assert t[1..] == b + ("\"" + rest);
      SkipPlain(b, "\"" + rest, key);
    }
  }

  // From one quote to the next, over a text that is not the key because it holds a separator.
  lemma Hop(b: string, sep: char, rest: string, text: string, key: string)
    requires NoQuote(b) && IsKey(key) && sep in b && (sep == ':' || sep == ',') && text == b + ("\"" + rest)
    ensures After("\"" + text, Quoted(key)) == After("\"" + rest, Quoted(key))
  {
    HopWord(b, rest, text, key);
  }

  lemma HopWord(b: string, rest: string, text: string, key: string)
    requires NoQuote(b) && NoQuote(key) && b != key && text == b + ("\"" + rest)
    ensures After("\"" + text, Quoted(key)) == After("\"" + rest, Quoted(key))
  {
    assert "\"" + text == Quoted(b) + rest;
    AtQuote(b, rest, key);
  }

  // Five pieces in a row, whichever way they are joined.
  lemma Joined(a: string, b: string, c: string, d: string, e: string, t: string)
    ensures a + (b + (c + (d + (e + t)))) == (a + b + c + d + e) + t
    ensures a + (b + (c + t)) == (a + b + c) + t
  {
  }

  // What stands between the last quote of a field that is passed and the comma or brace after it.
  function Glue(f: Field): string {
    if f.quoted then f.blanks.afterValue
    else f.blanks.beforeColon + ":" + f.blanks.afterColon + f.value + f.blanks.afterValue
  }

  lemma GlueIsPlain(f: Field, key: string)
    requires Passes(f, key)
    ensures NoQuote(Glue(f))
  {
    var b := f.blanks;
    assert NoQuote(b.beforeColon) && NoQuote(b.afterColon) && NoQuote(b.afterValue);
  }

  // A search passes over a field with another key.
  lemma PassField(f: Field, end: string, key: string)
    requires IsKey(key) && Passes(f, key)
    ensures After(Quoted(f.key) + (f.blanks.beforeColon + (":" + (f.blanks.afterColon +
                  (Shown(f) + (f.blanks.afterValue + end))))), Quoted(key)) ==
        After("\"" + (Glue(f) + end), Quoted(key))
  {
    hide After;
    var b, v := f.blanks, f.value;
    var close := b.afterValue + end;
    var tail := b.beforeColon + (":" + (b.afterColon + (Shown(f) + close)));
    AtQuote(f.key, tail, key);
    if f.quoted {
      var inner := v + ("\"" + close);
      var glue := b.beforeColon + ":" + b.afterColon;
      assert Shown(f) + close == "\"" + inner;
      Joined(b.beforeColon, ":", b.afterColon, "", "", "\"" + inner);
      assert glue[|b.beforeColon|] == ':';
      Hop(glue, ':', inner, tail, key);
      HopWord(v, close, inner, key);
    } else {
      Joined(b.beforeColon, ":", b.afterColon, v, b.afterValue, end);
    }
  }

  lemma KeyOpens(fs: seq<Field>, key: string)
    requires fs != [] && AreBlank(fs[0].blanks)
    ensures After(Members(fs), Quoted(key)) == After(Quoted(fs[0].key) + Tail(fs), Quoted(key))
  {
    hide After, Tail, Quoted;
    assert NoQuote(fs[0].blanks.beforeKey);
    SkipPlain(fs[0].blanks.beforeKey, Quoted(fs[0].key) + Tail(fs), key);
  }

  lemma MembersPassed(fs: seq<Field>, key: string)
    requires fs != [] && IsKey(key) && Passes(fs[0], key)
    ensures NoQuote(Glue(fs[0]))
    ensures After(Members(fs), Quoted(key)) == After("\"" + (Glue(fs[0]) + Rest(fs)), Quoted(key))
  {
    hide After, Rest, Shown, Quoted, Glue;
    GlueIsPlain(fs[0], key);
    KeyOpens(fs, key);
    PassField(fs[0], Rest(fs), key);
  }

  lemma {:induction false} SearchFinds(fs: seq<Field>, i: nat)
    requires i < |fs| && IsKey(fs[i].key) && AreBlank(fs[i].blanks)
    requires forall j :: 0 <= j < i ==> Passes(fs[j], fs[i].key)
    ensures After(Members(fs), Quoted(fs[i].key)) == Some(Tail(fs[i..]))
  {
    hide After, Tail, Rest, Glue;
    var key := fs[i].key;
    if i == 0 {
      KeyOpens(fs, key);
      AtQuote(key, Tail(fs), key);
      assert fs[0..] == fs;
    } else {
      SearchFinds(fs[1..], i - 1);
      assert fs[1..][i - 1..] == fs[i..];
      MembersPassed(fs, key);
      CommaPassed(fs, key);
    }
  }

  // The search goes on with the next field.
  lemma CommaPassed(fs: seq<Field>, key: string)
    requires |fs| > 1 && IsKey(key) && NoQuote(Glue(fs[0])) && AreBlank(fs[1].blanks)
    ensures After("\"" + (Glue(fs[0]) + Rest(fs)), Quoted(key)) == After(Members(fs[1..]), Quoted(key))
  {
    hide After, Tail, Glue, Members;
    var next := fs[1].blanks.beforeKey;
    var more := fs[1].key + ("\"" + Tail(fs[1..]));
    MembersOpen(fs[1..], next, more);
    SkipPlain(next, "\"" + more, key);
    Comma(Glue(fs[0]), next, more, key);
  }

  lemma MembersOpen(fs: seq<Field>, blanks: string, more: string)
    requires fs != [] && blanks == fs[0].blanks.beforeKey && more == fs[0].key + ("\"" + Tail(fs))
    ensures Members(fs) == blanks + ("\"" + more)
  {
    hide Tail;
    assert Quoted(fs[0].key) + Tail(fs) == "\"" + more;
  }

  lemma Comma(glue: string, blanks: string, more: string, key: string)
    requires NoQuote(glue) && IsBlank(blanks) && IsKey(key)
    ensures After("\"" + (glue + ("," + (blanks + ("\"" + more)))), Quoted(key)) == After("\"" + more, Quoted(key))
  {
    hide After;
    var b := glue + "," + blanks;
    Joined(glue, ",", blanks, "", "", "\"" + more);
    assert b[|glue|] == ',';
    Hop(b, ',', more, b + ("\"" + more), key);
  }

  // No quote follows, so nothing is found.
  lemma NothingFound(a: string, key: string)
    requires NoQuote(a)
    ensures After("\"" + a, Quoted(key)) == None
  {
    assert a + "" == a;
    SkipPlain(a, "", key);
    assert ("\"" + a)[1..] == a;
    assert Quoted(key)[|key| + 1] == '"';
  }

  lemma {:induction false} SearchFails(fs: seq<Field>, key: string)
    requires fs != [] && IsKey(key)
    requires forall j :: 0 <= j < |fs| ==> Passes(fs[j], key)
    ensures After(Members(fs), Quoted(key)) == None
  {
    hide After, Members, Rest, Glue, Quoted;
    MembersPassed(fs, key);
    if |fs| == 1 {
      RestUnfold(fs);
      NothingFound(Glue(fs[0]) + "}", key);
    } else {
      SearchFails(fs[1..], key);
      CommaPassed(fs, key);
    }
  }

  lemma {:induction false} UpToStop(v: string, rest: string, chars: set<char>)
    requires forall i :: 0 <= i < |v| ==> v[i] !in chars
    requires rest != "" && rest[0] in chars
    ensures UpTo(v + rest, chars) == v
  {
    if v == "" {
      assert v + rest == rest;
    } else {
      UpToStop(v[1..], rest, chars);
      assert (v + rest)[1..] == v[1..] + rest;
    }
  }

  lemma {:induction false} QuoteAhead(v: string, rest: string)
    ensures After(v + ("\"" + rest), "\"") != None
  {
    var s := v + ("\"" + rest);
    if v != "" {
      QuoteAhead(v[1..], rest);
      assert s[1..] == v[1..] + ("\"" + rest);
    } else {
      assert s == "\"" + rest;
    }
  }

  lemma QuotedValue(v: string, rest: string)
    requires NoQuote(v)
    ensures ValueAt(Quoted(v) + rest) == v
  {
    hide After, UpTo;
    var t, close := Quoted(v) + rest, "\"" + rest;
    assert t[0] == '"' && t[1..] == v + close;
    assert DropBlanks(t) == t;
    QuoteAhead(v, rest);
    UpToStop(v, close, {'"'});
  }

  lemma PlainValue(v: string, rest: string)
    requires NoQuote(v) && v != "" && (forall i :: 0 <= i < |v| ==> v[i] !in STOPS)
    requires rest != "" && rest[0] in STOPS
    ensures ValueAt(v + rest) == v
  {
    hide After, UpTo;
    assert (v + rest)[0] == v[0] && v[0] !in STOPS && v[0] != '"';
    assert DropBlanks(v + rest) == v + rest;
    UpToStop(v, rest, STOPS);
  }

  lemma {:induction false} SkipBlanks(b: string, t: string)
    requires IsBlank(b)
    ensures DropBlanks(b + t) == DropBlanks(t)
  {
    if b == "" {
      Empty(t);
    } else {
      SkipBlanks(b[1..], t);
      assert (b + t)[1..] == b[1..] + t;
    }
  }

  lemma ValueAfterBlanks(b: string, t: string)
    requires IsBlank(b)
    ensures ValueAt(b + t) == ValueAt(t)
  {
    hide After, UpTo, DropBlanks;
    SkipBlanks(b, t);
  }

  lemma {:induction false} ColonAfterBlanks(b: string, t: string)
    requires IsBlank(b)
    ensures After(b + (":" + t), ":") == Some(t)
  {
    var s := b + (":" + t);
    if b == "" {
      Empty(":" + t);
      assert s[1..] == t;
    } else {
      ColonAfterBlanks(b[1..], t);
      assert s[1..] == b[1..] + (":" + t);
      assert s[0] != ":"[0];
    }
  }

  lemma ValueRead(fs: seq<Field>)
    requires fs != [] && Readable(fs[0])
    ensures ValueAt(Value(fs)) == fs[0].value
  {
    hide ValueAt, Members, Quoted;
    var rest := fs[0].blanks.afterValue + Rest(fs);
    ValueAfterBlanks(fs[0].blanks.afterColon, Shown(fs[0]) + rest);
    if fs[0].quoted {
      QuotedValue(fs[0].value, rest);
    } else {
      assert rest[0] in STOPS;
      PlainValue(fs[0].value, rest);
    }
  }

  /**
   In a flat object with any blanks around its keys, colons and values, every field is read back by
   its key, as long as no earlier field has that key or, in quotes, that value.
   */
  lemma FieldIsFound(fs: seq<Field>, i: nat)
    requires i < |fs| && IsKey(fs[i].key) && Readable(fs[i])
    requires forall j :: 0 <= j < i ==> Passes(fs[j], fs[i].key)
    ensures ValueOf(Text(fs), fs[i].key) == fs[i].value
  {
    hide ValueAt, Value, Members, After;
    SkipPlain("{", Members(fs), fs[i].key);
    SearchFinds(fs, i);
    ColonAfterBlanks(fs[i].blanks.beforeColon, Value(fs[i..]));
    ValueRead(fs[i..]);
  }

  /** A key that no field has is read as the empty value. */
  lemma FieldIsMissing(fs: seq<Field>, key: string)
    requires fs != [] && IsKey(key) && forall j :: 0 <= j < |fs| ==> Passes(fs[j], key)
    ensures ValueOf(Text(fs), key) == ""
  {
    hide Members, After;
    SkipPlain("{", Members(fs), key);
    SearchFails(fs, key);
  }
}
