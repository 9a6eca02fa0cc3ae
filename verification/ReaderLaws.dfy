/** What the readers of numbers, addresses and events give, by the text they are given. */
module ReaderLaws {
  import opened Words
  import opened Numerals
  import opened Json
  import opened Ipv4
  import opened RoundTrip
  import B = Bits

  // ---- Numbers ----

  ghost predicate AllSpace(s: string) {
    forall i :: 0 <= i < |s| ==> s[i] in " \t\n\r" || s[i] as int in {11, 12}
  }

  ghost predicate NoDigitFirst(s: string) {
    s == "" || !('0' <= s[0] <= '9')
  }

  lemma {:induction false} SpaceSkipped(w: string, t: string)
    requires AllSpace(w) && (t == "" || !IsSpace(t[0]))
    ensures SkipSpace(w + t) == t
  {
    if w == "" {
      assert w + t == t;
    } else {
      SpaceSkipped(w[1..], t);
      assert (w + t)[1..] == w[1..] + t;
      assert IsSpace(w[0]);
    }
  }

  lemma {:induction false} DigitsUpTo(d: string, t: string)
    requires AllDigits(d) && NoDigitFirst(t)
    ensures LeadingDigits(d + t) == d
  {
    if d == "" {
      assert d + t == t;
    } else {
      DigitsUpTo(d[1..], t);
      assert (d + t)[1..] == d[1..] + t;
      assert d == [d[0]] + d[1..];
    }
  }

  /**
   A number is read past spaces and one sign, up to the first character that is no digit; without
   a digit there is no number.
   */
  lemma NumeralIsRead(space: string, sign: string, digits: string, end: string)
    requires AllSpace(space) && sign in ["", "+", "-"] && AllDigits(digits) && NoDigitFirst(end)
    requires sign == "" && digits == "" ==> end == "" || !(IsSpace(end[0]) || end[0] in "+-")
    ensures ReadNumeral(space + (sign + (digits + end))) ==
      if digits == "" then None else Some(Numeral(sign == "-", Numerals.Value(digits)))
  {
    hide LeadingDigits, SkipSpace, Numerals.Value;
    var number := digits + end;
    var t := sign + number;
    SpaceSkipped(space, t);
    DigitsUpTo(digits, end);
    if sign == "" {
      assert t == number;
    } else {
      assert t[1..] == number && t[0] == sign[0];
    }
  }

  /** Numbers are written without leading zeros, which do not matter when they are read. */
  lemma {:induction false} LeadingZeros(n: nat, digits: string)
    requires AllDigits(digits)
    ensures n > 0 ==> Decimal(n)[0] != '0'
    ensures Numerals.Value("0" + digits) == Numerals.Value(digits)
    decreases n + |digits|
  {
    if n >= 10 {
      LeadingZeros(n / 10, "");
    }
    if digits != "" {
      var last := |digits| - 1;
      LeadingZeros(0, digits[..last]);
      assert ("0" + digits)[..last + 1] == "0" + digits[..last];
    } else {
      assert "0"[..0] == "";
    }
  }

  /** Numbers are printed in base ten. */
  lemma BaseTen(n: nat, d: nat)
    requires d < 10
    ensures Decimal(d) == ["0123456789"[d]]
    ensures n > 0 ==> Decimal(10 * n + d) == Decimal(n) + ["0123456789"[d]]
  {
    assert (10 * n + d) / 10 == n && (10 * n + d) % 10 == d;
    assert DigitChar(d) == "0123456789"[d];
  }

  // The signed value of a numeral.
  function Signed(negative: bool, magnitude: nat): int {
    if negative then 0 - magnitude else magnitude
  }

  /**
   `stoi` gives the signed value when it has 32 bits, and `stoul` the signed value reduced to 64
   bits when the digits have no more; both throw otherwise.
   */
  lemma ReadersOfNumerals(space: string, sign: string, n: nat, end: string)
    requires AllSpace(space) && sign in ["", "+", "-"] && NoDigitFirst(end)
    ensures var s, v := space + (sign + (Decimal(n) + end)), Signed(sign == "-", n);
      && Stoi(s) == (if -2_147_483_648 <= v <= 2_147_483_647 then Some(v) else None)
      && Stoul(s) == (if n <= 18_446_744_073_709_551_615 then Some(v % 18_446_744_073_709_551_616) else None)
  {
    hide ReadNumeral, Decimal;
    NumeralIsRead(space, sign, Decimal(n), end);
    ValueOfDecimal(n);
  }

  // ---- Addresses ----

  // Numbers with dots between them.
  function Dots(parts: seq<nat>): string {
    if parts == [] then "" else if |parts| == 1 then Decimal(parts[0])
    else Decimal(parts[0]) + "." + Dots(parts[1..])
  }

  // What a reader takes, and what it keeps of it.
  function Limit(r: Reader): nat {
    if r == PipelineReader then 0x8000_0000 else 0x1_0000_0000_0000_0000
  }

  function Kept(r: Reader, n: nat): uint32 {
    if r == PipelineReader then n % 256 else n % 0x1_0000_0000
  }

  ghost predicate Taken(r: Reader, parts: seq<nat>, n: nat) {
    forall i :: 0 <= i < n && i < |parts| ==> parts[i] < Limit(r)
  }

  function KeptParts(r: Reader, parts: seq<nat>, n: nat): (os: seq<uint32>)
    ensures |os| == if |parts| < n then |parts| else n
    ensures forall i :: 0 <= i < |os| ==> os[i] == Kept(r, parts[i])
    decreases n
  {
    if parts == [] || n == 0 then [] else [Kept(r, parts[0])] + KeptParts(r, parts[1..], n - 1)
  }

  lemma OctetIsKept(r: Reader, n: nat)
    ensures Octet(r, Decimal(n)) == if n < Limit(r) then Some(Kept(r, n)) else None
  {
    hide Stoi, Stoul, Decimal;
    StoiOfDecimal(n);
    StoulOfDecimal(n);
  }

  lemma DotsSplit(parts: seq<nat>)
    requires parts != []
    ensures Part(Dots(parts)) == Decimal(parts[0]) && Left(Dots(parts)) == Dots(parts[1..])
    ensures Dots(parts) != ""
  {
    hide Decimal, Part, Left;
    PartOfNumber(Decimal(parts[0]), Dots(parts[1..]));
  }

  lemma {:induction false} OctetsOfDots(r: Reader, parts: seq<nat>, n: nat)
    ensures Octets(r, Dots(parts), n) == if Taken(r, parts, n) then Some(KeptParts(r, parts, n)) else None
    decreases n
  {
    hide Octets, Octet, Part, Left, Decimal, Dots;
    if parts == [] || n == 0 {
      NoDots(parts);
      NoMoreOctets(r, Dots(parts), n);
    } else {
      DotsSplit(parts);
      OctetsUnfold(r, Dots(parts), n);
      OctetIsKept(r, parts[0]);
      OctetsOfDots(r, parts[1..], n - 1);
      TakenUnfold(r, parts, n);
    }
  }

  lemma NoDots(parts: seq<nat>)
    ensures parts == [] ==> Dots(parts) == ""
  {
  }

  lemma TakenUnfold(r: Reader, parts: seq<nat>, n: nat)
    requires parts != [] && n > 0
    ensures Taken(r, parts, n) <==> parts[0] < Limit(r) && Taken(r, parts[1..], n - 1)
  {
    if parts[0] < Limit(r) && Taken(r, parts[1..], n - 1) {
      forall i | 0 <= i < n && i < |parts|
        ensures parts[i] < Limit(r)
      {
        assert i > 0 ==> parts[i] == parts[1..][i - 1];
      }
    }
  }

  // The low byte of a number that is there.
  function LowByte(parts: seq<nat>, i: nat): (b: nat)
    ensures b < 256
  {
    if i < |parts| then parts[i] % 256 else 0
  }

  function Word(parts: seq<nat>): nat {
    LowByte(parts, 0) * 16_777_216 + LowByte(parts, 1) * 65_536 + LowByte(parts, 2) * 256 + LowByte(parts, 3)
  }

  lemma LowBytes(parts: seq<nat>)
    ensures forall i :: 0 <= i < 4 ==> Padded(KeptParts(PipelineReader, parts, 4), i) == LowByte(parts, i)
  {
    hide KeptParts;
  }

  lemma SmallParts(parts: seq<nat>)
    requires |parts| >= 4 && forall i :: 0 <= i < 4 ==> parts[i] < 256
    ensures forall i :: 0 <= i < 4 ==> Padded(KeptParts(ToolReader, parts, 4), i) == LowByte(parts, i)
    ensures Taken(ToolReader, parts, 4)
  {
    hide KeptParts;
  }

  /**
   The pipeline joins the low bytes of the first four numbers, the first one highest, with zeros
   for the missing ones; it throws exactly when one of them has 2^31 or more.
   */
  lemma PipelineAddress(parts: seq<nat>)
    ensures IpOf(PipelineReader, Dots(parts)) ==
      if forall i :: 0 <= i < 4 && i < |parts| ==> parts[i] < 0x8000_0000 then Some(Word(parts)) else None
  {
    hide Octets, FromOctets, Dots, KeptParts, LowByte, Padded;
    OctetsOfDots(PipelineReader, parts, 4);
    LowBytes(parts);
    FromBytes(LowByte(parts, 0), LowByte(parts, 1), LowByte(parts, 2), LowByte(parts, 3));
  }

  /**
   The tool gives address 0 for fewer than four numbers and else, for numbers below 256, the same
   word; it throws exactly when one of the first four has 2^64 or more.
   */
  lemma ToolAddress(parts: seq<nat>)
    ensures IpOf(ToolReader, Dots(parts)) == None <==>
        exists i :: 0 <= i < 4 && i < |parts| && parts[i] >= 0x1_0000_0000_0000_0000
    ensures IpOf(ToolReader, Dots(parts)) != None && |parts| < 4 ==> IpOf(ToolReader, Dots(parts)) == Some(0)
    ensures |parts| >= 4 && (forall i :: 0 <= i < 4 ==> parts[i] < 256) ==>
        IpOf(ToolReader, Dots(parts)) == Some(Word(parts))
  {
    hide Octets, FromOctets, Dots, KeptParts, LowByte, Padded;
    OctetsOfDots(ToolReader, parts, 4);
    if |parts| >= 4 && forall i :: 0 <= i < 4 ==> parts[i] < 256 {
      SmallParts(parts);
      FromBytes(LowByte(parts, 0), LowByte(parts, 1), LowByte(parts, 2), LowByte(parts, 3));
    }
  }

  lemma JoinZero(x: uint32, k: nat)
    requires x < B.Pow2(k)
    ensures B.Or(0, x) == x && B.Or(x, 0) == x
  {
    B.OrDisjoint(0, x, k);
    B.OrDisjoint(x, 0, 0);
  }

  /** On octets of 256 and more the two can differ. */
  lemma OctetOver255()
    ensures IpOf(PipelineReader, Dots([0, 256, 0, 0])) == Some(0)
    ensures IpOf(ToolReader, Dots([0, 256, 0, 0])) == Some(0x100_0000)
  {
    hide Octets, Dots, B.Or, B.Pow2;
    var parts: seq<nat> := [0, 256, 0, 0];
    PipelineAddress(parts);
    OctetsOfDots(ToolReader, parts, 4);
    Powers();
    B.Pow2Of32();
    JoinZero(0x100_0000, 32);
    JoinZero(0, 32);
  }

  lemma DotsOfFour(a: uint32, b: uint32, c: uint32, d: uint32)
    ensures Dotted(a, b, c, d) == Dots([a, b, c, d])
  {
    hide Decimal;
    var parts: seq<nat> := [a, b, c, d];
    var s3: seq<nat> := [d];
    var s2: seq<nat> := [c, d];
    var s1: seq<nat> := [b, c, d];
    assert parts[1..] == s1 && s1[1..] == s2 && s2[1..] == s3;
    assert Dots(s2) == Decimal(c) + "." + Decimal(d);
    assert Dots(s1) == Decimal(b) + "." + Dots(s2);
    assert Dots(parts) == Decimal(a) + "." + Dots(s1);
  }

  /** An address is printed as its bytes from the highest on, and the swap reverses them. */
  lemma BytesOfWord(a: uint32, b: uint32, c: uint32, d: uint32)
    requires a < 256 && b < 256 && c < 256 && d < 256
    ensures ToString(a * 16_777_216 + b * 65_536 + c * 256 + d) == Dots([a, b, c, d])
    ensures ByteSwap(a * 16_777_216 + b * 65_536 + c * 256 + d) == d * 16_777_216 + c * 65_536 + b * 256 + a
  {
    hide ByteAt, FromOctets, Dotted, Dots;
    FromBytes(a, b, c, d);
    BytesOf(a, b, c, d);
    FromBytes(d, c, b, a);
    DotsOfFour(a, b, c, d);
  }

  // ---- Events ----

  const KEYS: seq<string> := ["src_ip", "dst_ip", "dst_port", "pid", "timestamp_ns"]

  // A flat object in which no text in quotes looks like a key.
  ghost predicate Flat(fs: seq<Field>) {
    fs != [] && forall i :: 0 <= i < |fs| ==>
        IsKey(fs[i].key) && Readable(fs[i]) && (fs[i].quoted ==> fs[i].value !in KEYS)
  }

  // The value of the first field with the key.
  function Lookup(fs: seq<Field>, key: string): string {
    if fs == [] then "" else if fs[0].key == key then fs[0].value else Lookup(fs[1..], key)
  }

  lemma {:induction false} LookupFirst(fs: seq<Field>, key: string) returns (i: nat)
    ensures i <= |fs| && forall j :: 0 <= j < i ==> fs[j].key != key
    ensures Lookup(fs, key) == if i < |fs| then fs[i].value else ""
    ensures i < |fs| ==> fs[i].key == key
  {
    if fs == [] || fs[0].key == key {
      i := 0;
    } else {
      i := LookupFirst(fs[1..], key);
      i := i + 1;
    }
  }

  /** Every field of a flat object is looked up, in any order and with any blanks. */
  lemma LookupIsRead(fs: seq<Field>, key: string)
    requires Flat(fs) && key in KEYS
    ensures ValueOf(Text(fs), key) == Lookup(fs, key)
  {
    hide ValueOf, Text, Lookup;
    KeyStarts(key);
    var i := LookupFirst(fs, key);
    assert forall j :: 0 <= j < i ==> Passes(fs[j], key);
    if i < |fs| {
      FieldIsFound(fs, i);
    } else {
      FieldIsMissing(fs, key);
    }
  }

  lemma AllLookups(fs: seq<Field>)
    requires Flat(fs)
    ensures ValueOf(Text(fs), "src_ip") == Lookup(fs, "src_ip") && ValueOf(Text(fs), "dst_ip") == Lookup(fs, "dst_ip")
    ensures ValueOf(Text(fs), "dst_port") == Lookup(fs, "dst_port") && ValueOf(Text(fs), "pid") == Lookup(fs, "pid")
    ensures ValueOf(Text(fs), "timestamp_ns") == Lookup(fs, "timestamp_ns")
    ensures Text(fs) != "" && Text(fs)[0] == '{'
  {
    hide ValueOf, Lookup, Members, Flat;
    LookupIsRead(fs, "src_ip");
    LookupIsRead(fs, "dst_ip");
    LookupIsRead(fs, "dst_port");
    LookupIsRead(fs, "pid");
    LookupIsRead(fs, "timestamp_ns");
    FlatIsFull(fs);
  }

  lemma FlatIsFull(fs: seq<Field>)
    ensures Flat(fs) ==> fs != []
  {
  }

  // The object gives number `n` for the key, or has no such field and the default is `n`.
  ghost predicate Gives(fs: seq<Field>, key: string, n: nat, missing: nat) {
    Lookup(fs, key) == Decimal(n) || (Lookup(fs, key) == "" && n == missing)
  }

  lemma NumberGiven(text: string, n: nat, missing: uint64)
    requires text == Decimal(n) || (text == "" && n == missing)
    ensures NumberOr(text, missing) == if n < 0x1_0000_0000_0000_0000 then Some(n) else None
  {
    hide Stoul, Decimal;
    StoulOfDecimal(n);
  }

  /**
   The pipeline takes an event from every flat object that has the two addresses, with its fields in
   any order among others: the port is reduced to 16 bits and the process number to 32, a missing
   number is 0, and a number of 2^64 or more throws.
   */
  lemma PipelineReadsObject(fs: seq<Field>, a: uint32, b: uint32, port: nat, pid: nat, ts: nat)
    requires Flat(fs) && Lookup(fs, "src_ip") == ToString(a) && Lookup(fs, "dst_ip") == ToString(b)
    requires Gives(fs, "dst_port", port, 0) && Gives(fs, "pid", pid, 0) && Gives(fs, "timestamp_ns", ts, 0)
    ensures PipelineEvent(Text(fs)) ==
      if port < 0x1_0000_0000_0000_0000 && pid < 0x1_0000_0000_0000_0000 && ts < 0x1_0000_0000_0000_0000
      then Parsed(NetworkEvent(a, b, port % 65_536, pid % 4_294_967_296, ts)) else Thrown
  {
    hide Flat, Text, ValueOf, Lookup, ToString, Decimal, IpOf, NumberOr;
    AllLookups(fs);
    AddressStarts(a);
    AddressStarts(b);
    ParseToString(PipelineReader, a);
    ParseToString(PipelineReader, b);
    NumberGiven(Lookup(fs, "dst_port"), port, 0);
    NumberGiven(Lookup(fs, "pid"), pid, 0);
    NumberGiven(Lookup(fs, "timestamp_ns"), ts, 0);
  }

  /** The tool takes the fields it keeps from every such object; its clock replaces a missing timestamp. */
  lemma ToolReadsObject(fs: seq<Field>, a: uint32, b: uint32, port: nat, ts: nat, now: uint64)
    requires Flat(fs) && Lookup(fs, "src_ip") == ToString(a) && Lookup(fs, "dst_ip") == ToString(b)
    requires Gives(fs, "dst_port", port, 0) && Gives(fs, "timestamp_ns", ts, now)
    ensures ToolLine(Text(fs), now) ==
      if port < 0x1_0000_0000_0000_0000 && ts < 0x1_0000_0000_0000_0000
      then Parsed(ToolEvent(a, b, port % 65_536, ts)) else Thrown
  {
    hide Flat, Text, ValueOf, Lookup, ToString, Decimal, IpOf, NumberOr;
    AllLookups(fs);
    AddressStarts(a);
    AddressStarts(b);
    ParseToString(ToolReader, a);
    ParseToString(ToolReader, b);
    NumberGiven(Lookup(fs, "dst_port"), port, 0);
    NumberGiven(Lookup(fs, "timestamp_ns"), ts, now);
  }

  lemma AddressStarts(ip: uint32)
    ensures ToString(ip) != ""
  {
    hide ByteAt;
  }

  ghost predicate NoAddress(fs: seq<Field>) {
    Lookup(fs, "src_ip") == "" || Lookup(fs, "dst_ip") == ""
  }

  /**
   A line is passed over exactly when it does not start with a brace or lacks one of the two
   addresses; the readers agree on that.
   */
  lemma SkippedLines(fs: seq<Field>, line: string, now: uint64)
    ensures line == "" || line[0] != '{' ==> PipelineEvent(line) == Skipped && ToolLine(line, now) == Skipped
    ensures Flat(fs) ==> (PipelineEvent(Text(fs)) == Skipped <==> NoAddress(fs))
    ensures Flat(fs) ==> (ToolLine(Text(fs), now) == Skipped <==> NoAddress(fs))
  {
    hide Flat, Text, ValueOf, Lookup, IpOf, NumberOr;
    if Flat(fs) {
      AllLookups(fs);
    }
  }
}
