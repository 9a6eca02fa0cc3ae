/** Decimal numbers as the printers write them and as the standard library reads them. */
module Numerals {
  import opened Words

  predicate IsDigit(c: char) {
    '0' <= c <= '9'
  }

  function DigitOf(c: char): nat
    requires IsDigit(c)
  {
    c as int - '0' as int
  }

  function DigitChar(d: nat): (c: char)
    requires d < 10
    ensures IsDigit(c) && DigitOf(c) == d
  {
    ('0' as int + d) as char
  }

  ghost predicate AllDigits(s: string) {
    forall i :: 0 <= i < |s| ==> IsDigit(s[i])
  }

  // What `%u`, `%lu` and `std::to_string` print.
  function Decimal(n: nat): (s: string)
    ensures s != "" && AllDigits(s)
  {
    if n < 10 then [DigitChar(n)] else Decimal(n / 10) + [DigitChar(n % 10)]
  }

  function Value(s: string): nat
    requires AllDigits(s)
  {
    if s == "" then 0 else 10 * Value(s[..|s| - 1]) + DigitOf(s[|s| - 1])
  }

  /** Reading a printed number gives it back. */
  lemma {:induction false} ValueOfDecimal(n: nat)
    ensures Value(Decimal(n)) == n
  {
    if n < 10 {
      assert Decimal(n)[..0] == "";
    } else {
      ValueOfDecimal(n / 10);
      assert Decimal(n)[..|Decimal(n)| - 1] == Decimal(n / 10);
    }
  }

  // `isspace`.
  predicate IsSpace(c: char) {
    c == ' ' || '\t' <= c <= '\r'
  }

  function SkipSpace(s: string): string {
    if s != "" && IsSpace(s[0]) then SkipSpace(s[1..]) else s
  }

  // The digits a string starts with.
  function LeadingDigits(s: string): (d: string)
    ensures AllDigits(d)
  {
    if s != "" && IsDigit(s[0]) then [s[0]] + LeadingDigits(s[1..]) else ""
  }

  datatype Numeral = Numeral(negative: bool, magnitude: nat)

  // The number a string starts with, after spaces and a sign; whatever follows is ignored.
  function ReadNumeral(s: string): Option<Numeral> {
    var t := SkipSpace(s);
    var negative := t != "" && t[0] == '-';
    var d := LeadingDigits(if negative || (t != "" && t[0] == '+') then t[1..] else t);
    if d == "" then None else Some(Numeral(negative, Value(d)))
  }

  // `std::stoi`; `None` when it throws.
  function Stoi(s: string): Option<int> {
    match ReadNumeral(s)
    case None => None
    case Some(n) =>
      var v: int := if n.negative then 0 - n.magnitude else n.magnitude;
      if -0x8000_0000 <= v < 0x8000_0000 then Some(v) else None
  }

  // `std::stoul` and `std::stoull`: a minus sign negates within 64 bits.
  function Stoul(s: string): Option<uint64> {
    match ReadNumeral(s)
    case None => None
    case Some(n) =>
      if n.magnitude >= TWO_TO_THE_64 then None
      else if n.negative && n.magnitude > 0 then Some(TWO_TO_THE_64 - n.magnitude)
      else Some(n.magnitude)
  }

  lemma {:induction false} LeadingDigitsOfDigits(s: string)
    requires AllDigits(s)
    ensures LeadingDigits(s) == s
  {
    if s != "" {
      LeadingDigitsOfDigits(s[1..]);
      assert s == [s[0]] + s[1..];
    }
  }

  lemma ReadDecimal(n: nat)
    ensures ReadNumeral(Decimal(n)) == Some(Numeral(false, n))
  {
    var s := Decimal(n);
    assert IsDigit(s[0]);
    LeadingDigitsOfDigits(s);
    ValueOfDecimal(n);
  }

  /** `std::stoi` gives back every printed number that fits, and throws on every other. */
  lemma StoiOfDecimal(n: nat)
    ensures Stoi(Decimal(n)) == if n < 0x8000_0000 then Some(n) else None
  {
    ReadDecimal(n);
  }

  /** `std::stoul` gives back every printed number that fits, and throws on every other. */
  lemma StoulOfDecimal(n: nat)
    ensures Stoul(Decimal(n)) == if n < TWO_TO_THE_64 then Some(n) else None
  {
    ReadDecimal(n);
  }
}
