/** Dotted IPv4 addresses: the three printers and the two parsers. */
module Ipv4 {
  import opened Words
  import opened Numerals
  import opened Keys
  import B = Bits

  // ---- Printing ----

  // The byte `n` places above the lowest one, as `(x >> 8n) & 0xFF`.
  function ByteAt(x: uint32, n: nat): (b: uint32)
    ensures b < 0x100
  {
    B.Shr(x, 8 * n) % 0x100
  }

  function Dotted(a: uint32, b: uint32, c: uint32, d: uint32): string {
    Decimal(a) + "." + Decimal(b) + "." + Decimal(c) + "." + Decimal(d)
  }

  // `ip_to_string` and `ipv4_to_string`: the highest byte first.
  function ToString(ip: uint32): string {
    Dotted(ByteAt(ip, 3), ByteAt(ip, 2), ByteAt(ip, 1), ByteAt(ip, 0))
  }

  // `inet_ntop` on the bytes in memory order, which on a little-endian host starts at the lowest.
  function Ntop(networkOrder: uint32): string {
    Dotted(ByteAt(networkOrder, 0), ByteAt(networkOrder, 1), ByteAt(networkOrder, 2), ByteAt(networkOrder, 3))
  }

  // ---- Parsing ----

  // What `getline` up to a dot reads, and what it leaves.
  function Part(s: string): (p: string)
    ensures |p| <= |s|
  {
    if s == "" || s[0] == '.' then "" else [s[0]] + Part(s[1..])
  }

  function Left(s: string): (r: string)
    ensures s != "" ==> |r| < |s|
  {
    if s == "" then "" else if s[0] == '.' then s[1..] else Left(s[1..])
  }

  // The pipeline reads octets with `stoi` and keeps 8 bits; the tool reads them with `stoul` and
  // keeps 32.
  datatype Reader = PipelineReader | ToolReader

  function Octet(r: Reader, part: string): Option<uint32> {
    match r
    case PipelineReader =>
      (match Stoi(part)
       case None => None
       case Some(v) => Some(v % 0x100))
    case ToolReader =>
      (match Stoul(part)
       case None => None
       case Some(v) => Some(v % TWO_TO_THE_32))
  }

  // At most `n` octets; `None` when one of them throws.
  function Octets(r: Reader, s: string, n: nat): (os: Option<seq<uint32>>)
    ensures os.Some? ==> |os.value| <= n
    decreases n
  {
    if s == "" || n == 0 then Some([])
    else
      match Octet(r, Part(s))
      case None => None
      case Some(o) =>
        match Octets(r, Left(s), n - 1)
        case None => None
        case Some(os) => Some([o] + os)
  }

  lemma OrIsWord(a: uint32, b: uint32)
    ensures B.Or(a, b) < TWO_TO_THE_32
  {
    B.Pow2Of32();
    B.OrBound(a, b, 32);
  }

  function Join(a: uint32, b: uint32): uint32 {
    OrIsWord(a, b);
    B.Or(a, b)
  }

  // `ip_from_octets`.
  function FromOctets(a: uint32, b: uint32, c: uint32, d: uint32): uint32 {
    Join(Join(Join(B.Shl(a, 24), B.Shl(b, 16)), B.Shl(c, 8)), d)
  }

  function Padded(os: seq<uint32>, i: nat): uint32 {
    if i < |os| then os[i] else 0
  }

  // What the parsers return; missing octets are 0 for the one and an error value for the other.
  function IpOf(r: Reader, s: string): Option<uint32> {
    match Octets(r, s, 4)
    case None => None
    case Some(os) =>
      if r == ToolReader && |os| != 4 then Some(0)
      else Some(FromOctets(Padded(os, 0), Padded(os, 1), Padded(os, 2), Padded(os, 3)))
  }

  // What the loop finds is what it has found before, and then the rest.
  function Prepend(os: seq<uint32>, more: Option<seq<uint32>>): Option<seq<uint32>> {
    match more
    case None => None
    case Some(m) => Some(os + m)
  }

  lemma OctetsUnfold(r: Reader, s: string, n: nat)
    requires s != "" && n > 0
    ensures Octets(r, s, n) == match Octet(r, Part(s))
      case None => None
      case Some(o) => Prepend([o], Octets(r, Left(s), n - 1))
  {
  }

  lemma PrependAll(a: seq<uint32>, b: seq<uint32>, more: Option<seq<uint32>>)
    ensures Prepend(a, Prepend(b, more)) == Prepend(a + b, more)
  {
    if more.Some? {
      assert a + (b + more.value) == a + b + more.value;
    }
  }

  // The loop of both parsers.
  method ReadOctets(r: Reader, s: string, octets: array<uint32>) returns (ok: bool, idx: nat)
    requires octets.Length == 4 && octets[..] == [0, 0, 0, 0]
    modifies octets
    ensures ok <==> Octets(r, s, 4).Some?
    ensures ok ==> idx == |Octets(r, s, 4).value| <= 4 && octets[..idx] == Octets(r, s, 4).value
    ensures ok ==> forall i :: idx <= i < 4 ==> octets[i] == 0
  {
    hide Octets, Octet, Part, Left;
    idx := 0;
    var rest := s;
    PrependNothing(Octets(r, s, 4));
    while rest != "" && idx < 4
      invariant idx <= 4 && forall i :: idx <= i < 4 ==> octets[i] == 0
      invariant Octets(r, s, 4) == Prepend(octets[..idx], Octets(r, rest, 4 - idx))
      decreases |rest|
    {
      hide Octets, Octet, Part, Left;
      OctetsUnfold(r, rest, 4 - idx);
      var o := Octet(r, Part(rest));
      if o == None { return false, idx; }
      ghost var before := octets[..idx];
      PrependAll(before, [o.value], Octets(r, Left(rest), 3 - idx));
      octets[idx] := o.value;
      assert octets[..idx + 1] == before + [o.value];
      rest, idx := Left(rest), idx + 1;
    }
    NoMoreOctets(r, rest, 4 - idx);
    PrependNothing(Some(octets[..idx]));
    ok := true;
  }

  lemma PrependNothing(more: Option<seq<uint32>>)
    ensures Prepend([], more) == more
    ensures more.Some? ==> Prepend(more.value, Some([])) == more
  {
    if more.Some? {
      assert [] + more.value == more.value == more.value + [];
    }
  }

  lemma NoMoreOctets(r: Reader, s: string, n: nat)
    requires s == "" || n == 0
    ensures Octets(r, s, n) == Some([])
  {
  }

  // The pipeline's `parse_ip`.
  method ParseIp(s: string) returns (ip: Option<uint32>)
    ensures ip == IpOf(PipelineReader, s)
  {
    var octets := new uint32[4] [0, 0, 0, 0];
    var ok, idx := ReadOctets(PipelineReader, s, octets);
    if !ok { return None; }
    ip := Some(FromOctets(octets[0], octets[1], octets[2], octets[3]));
  }

  // The tool's `parse_ipv4`.
  method ParseIpv4(s: string) returns (ip: Option<uint32>)
    ensures ip == IpOf(ToolReader, s)
  {
    var octets := new uint32[4] [0, 0, 0, 0];
    var ok, idx := ReadOctets(ToolReader, s, octets);
    if !ok { return None; }
    if idx != 4 { return Some(0); }
    ip := Some(FromOctets(octets[0], octets[1], octets[2], octets[3]));
  }

  // ---- Round trips ----

  lemma {:induction false} PartOfNumber(d: string, rest: string)
    requires AllDigits(d)
    ensures Part(d + "." + rest) == d && Left(d + "." + rest) == rest
    ensures Part(d) == d && Left(d) == ""
  {
    var s := d + "." + rest;
    if d == "" {
      assert s[0] == '.' && s[1..] == rest;
    } else {
      PartOfNumber(d[1..], rest);
      assert s[1..] == d[1..] + "." + rest && s[0] == d[0] && d == [d[0]] + d[1..];
    }
  }

  lemma OctetOfDecimal(r: Reader, n: uint32)
    requires n < 0x100
    ensures Octet(r, Decimal(n)) == Some(n)
  {
    hide Stoi, Stoul, Decimal;
    StoiOfDecimal(n);
    StoulOfDecimal(n);
  }

  lemma FirstOctet(r: Reader, a: uint32, rest: string, n: nat)
    requires a < 0x100
    ensures Octets(r, Decimal(a) + "." + rest, n + 1) == Prepend([a], Octets(r, rest, n))
  {
    hide Octets, Part, Left, Octet, Decimal;
    OctetOfDecimal(r, a);
    PartOfNumber(Decimal(a), rest);
    OctetsUnfold(r, Decimal(a) + "." + rest, n + 1);
  }

  lemma LastOctet(r: Reader, a: uint32)
    requires a < 0x100
    ensures Octets(r, Decimal(a), 1) == Some([a])
  {
    hide Octets, Part, Left, Octet, Decimal;
    OctetOfDecimal(r, a);
    PartOfNumber(Decimal(a), "");
    OctetsUnfold(r, Decimal(a), 1);
    NoMoreOctets(r, Left(Decimal(a)), 0);
    assert [a] + [] == [a];
  }

  lemma OctetsOfDotted(r: Reader, a: uint32, b: uint32, c: uint32, d: uint32)
    requires a < 0x100 && b < 0x100 && c < 0x100 && d < 0x100
    ensures Octets(r, Dotted(a, b, c, d), 4) == Some([a, b, c, d])
  {
    hide Octets, Decimal;
    var s3 := Decimal(d);
    var s2 := Decimal(c) + "." + s3;
    var s1 := Decimal(b) + "." + s2;
    assert Dotted(a, b, c, d) == Decimal(a) + "." + s1;
    LastOctet(r, d);
    FirstOctet(r, c, s3, 1);
    FirstOctet(r, b, s2, 2);
    FirstOctet(r, a, s1, 3);
    assert [a] + ([b] + ([c] + [d])) == [a, b, c, d];
  }

  lemma Powers()
    ensures B.Pow2(0) == 1 && B.Pow2(8) == 0x100 && B.Pow2(16) == 0x1_0000 && B.Pow2(24) == 0x100_0000
  {
    assert B.Pow2(4) == 16;
    B.Pow2Add(4, 4);
    B.Pow2Add(8, 8);
    B.Pow2Add(16, 8);
  }

  lemma ShlByte(a: uint32)
    requires a < 0x100
    ensures B.Shl(a, 24) == a * 0x100_0000 && B.Shl(a, 16) == a * 0x1_0000 && B.Shl(a, 8) == a * 0x100
  {
    hide B.Pow2;
    Powers();
  }

  // Joining bytes is positional notation.
  lemma FromBytes(a: uint32, b: uint32, c: uint32, d: uint32)
    requires a < 0x100 && b < 0x100 && c < 0x100 && d < 0x100
    ensures FromOctets(a, b, c, d) == a * 0x100_0000 + b * 0x1_0000 + c * 0x100 + d
  {
    hide B.Pow2, B.Or, B.Shl;
    Powers();
    ShlByte(a);
    ShlByte(b);
    ShlByte(c);
    B.OrDisjoint(a, b * 0x1_0000, 24);
    B.OrDisjoint(a * 0x100 + b, c * 0x100, 16);
    B.OrDisjoint(a * 0x1_0000 + b * 0x100 + c, d, 8);
  }

  // The bytes of a word are those of its key in the estimators.
  lemma BytesAreKey(x: uint32)
    ensures U32Key(x) == [ByteAt(x, 0), ByteAt(x, 1), ByteAt(x, 2), ByteAt(x, 3)]
  {
    hide B.Pow2, B.Shr;
    Powers();
    B.ShrIsDiv(x, 0);
    B.ShrIsDiv(x, 8);
    B.ShrIsDiv(x, 16);
    B.ShrIsDiv(x, 24);
  }

  lemma Bytes(x: uint32)
    ensures FromOctets(ByteAt(x, 3), ByteAt(x, 2), ByteAt(x, 1), ByteAt(x, 0)) == x
  {
    hide ByteAt, FromOctets;
    BytesAreKey(x);
    LoadU32Key(x);
    FromBytes(ByteAt(x, 3), ByteAt(x, 2), ByteAt(x, 1), ByteAt(x, 0));
  }

  lemma BytesOf(a: uint32, b: uint32, c: uint32, d: uint32)
    requires a < 0x100 && b < 0x100 && c < 0x100 && d < 0x100
    ensures var x := FromOctets(a, b, c, d);
      ByteAt(x, 3) == a && ByteAt(x, 2) == b && ByteAt(x, 1) == c && ByteAt(x, 0) == d
  {
    hide ByteAt, FromOctets, U32Key;
    var bytes: seq<byte> := [d, c, b, a];
    FromBytes(a, b, c, d);
    assert Load(bytes) == FromOctets(a, b, c, d);
    U32KeyLoad(bytes);
    BytesAreKey(FromOctets(a, b, c, d));
    SameFour(U32Key(Load(bytes)), d, c, b, a);
  }

  lemma SameFour(s: seq<byte>, a: uint32, b: uint32, c: uint32, d: uint32)
    requires |s| == 4 && a < 0x100 && b < 0x100 && c < 0x100 && d < 0x100
    ensures s == [a, b, c, d] <==> s[0] == a && s[1] == b && s[2] == c && s[3] == d
  {
  }

  // The same bytes in the opposite order, as `ntohl` gives on a little-endian host.
  function ByteSwap(x: uint32): uint32 {
    FromOctets(ByteAt(x, 0), ByteAt(x, 1), ByteAt(x, 2), ByteAt(x, 3))
  }

  /** Both parsers give back every address either program prints. */
  lemma ParseToString(r: Reader, ip: uint32)
    ensures IpOf(r, ToString(ip)) == Some(ip)
  {
    hide ByteAt, FromOctets, Octets, Dotted;
    OctetsOfDotted(r, ByteAt(ip, 3), ByteAt(ip, 2), ByteAt(ip, 1), ByteAt(ip, 0));
    Bytes(ip);
  }

  /** Both parsers read a collector's address as the host-order value of its network-order word. */
  lemma ParseNtop(r: Reader, networkOrder: uint32)
    ensures IpOf(r, Ntop(networkOrder)) == Some(ByteSwap(networkOrder))
  {
    hide ByteAt, FromOctets, Octets, Dotted;
    OctetsOfDotted(r, ByteAt(networkOrder, 0), ByteAt(networkOrder, 1), ByteAt(networkOrder, 2),
                   ByteAt(networkOrder, 3));
  }

  /** No address is lost: swapping twice gives the address back. */
  lemma ByteSwapTwice(x: uint32)
    ensures ByteSwap(ByteSwap(x)) == x
  {
    hide ByteAt, FromOctets;
    BytesOf(ByteAt(x, 0), ByteAt(x, 1), ByteAt(x, 2), ByteAt(x, 3));
    Bytes(x);
  }
}
