/** Known values of the hash: those published for the 32-bit x86 variant of MurmurHash3. */
module HashValues {
  import opened Words
  import opened Bits
  import opened Keys
  import opened Murmur

  // ---- Exclusive or on hexadecimal digits ----

  function Bit(x: nat, y: nat): nat {
    if x % 2 == y % 2 then 0 else 1
  }

  function Digit(x: nat, y: nat): nat {
    Bit(x, y) + 2 * Bit(x / 2, y / 2) + 4 * Bit(x / 4, y / 4) + 8 * Bit(x / 8, y / 8)
  }

  lemma XorDouble(a: nat, b: nat, x: nat, y: nat)
    requires x < 2 && y < 2
    ensures Xor(2 * a + x, 2 * b + y) == 2 * Xor(a, b) + Bit(x, y)
  {
    hide Xor;
    XorStep(2 * a + x, 2 * b + y);
  }

  lemma XorDigit(a: nat, b: nat, x: nat, y: nat)
    requires x < 0x10 && y < 0x10
    ensures Xor(0x10 * a + x, 0x10 * b + y) == 0x10 * Xor(a, b) + Digit(x, y)
  {
    hide Xor, Bit;
    var x1, x2, x3, y1, y2, y3 := x / 2, x / 4, x / 8, y / 2, y / 4, y / 8;
    XorDouble(a, b, x3, y3);
    XorDouble(2 * a + x3, 2 * b + y3, x2 - 2 * x3, y2 - 2 * y3);
    XorDouble(4 * a + x2, 4 * b + y2, x1 - 2 * x2, y1 - 2 * y2);
    XorDouble(8 * a + x1, 8 * b + y1, x - 2 * x1, y - 2 * y1);
    BitLow(x, y);
    BitLow(x1, y1);
    BitLow(x2, y2);
  }

  lemma BitLow(x: nat, y: nat)
    ensures Bit(x - 2 * (x / 2), y - 2 * (y / 2)) == Bit(x, y)
  {
    Parity(x);
    Parity(y);
  }

  lemma Parity(x: nat)
    ensures x - 2 * (x / 2) == x % 2 && x % 2 % 2 == x % 2
  {
  }

  // The word with these digits.
  function Hex(d: seq<nat>): nat {
    if d == [] then 0 else 0x10 * Hex(d[..|d| - 1]) + d[|d| - 1]
  }

  ghost predicate Digits(d: seq<nat>) {
    forall i :: 0 <= i < |d| ==> d[i] < 0x10
  }

  lemma {:induction false} XorHex(d: seq<nat>, e: seq<nat>, r: seq<nat>)
    requires |d| == |e| == |r| && Digits(d) && Digits(e)
    requires forall i :: 0 <= i < |r| ==> r[i] == Digit(d[i], e[i])
    ensures Xor(Hex(d), Hex(e)) == Hex(r)
  {
    hide Xor, Digit;
    if d == [] {
      XorZero(0);
    } else {
      var n := |d| - 1;
      XorHex(d[..n], e[..n], r[..n]);
      XorDigit(Hex(d[..n]), Hex(e[..n]), d[n], e[n]);
    }
  }

  lemma EightDigits(a: nat, b: nat, c: nat, d: nat, e: nat, f: nat, g: nat, h: nat)
    ensures Hex([a, b, c, d, e, f, g, h]) ==
      0x1000_0000 * a + 0x100_0000 * b + 0x10_0000 * c + 0x1_0000 * d + 0x1000 * e + 0x100 * f + 0x10 * g + h
  {
    var s := [a, b, c, d, e, f, g, h];
    assert s[..7] == [a, b, c, d, e, f, g] && s[..7][..6] == s[..6] && s[..6][..5] == s[..5] && s[..5][..4] == s[..4];
    assert s[..4][..3] == s[..3] && s[..3][..2] == s[..2] && s[..2][..1] == s[..1] && s[..1][..0] == [];
    assert Hex([]) == 0;
    assert Hex(s[..1]) == a;
    assert Hex(s[..2]) == 0x10 * a + b;
    assert Hex(s[..3]) == 0x100 * a + 0x10 * b + c;
    assert Hex(s[..4]) == 0x1000 * a + 0x100 * b + 0x10 * c + d;
    assert Hex(s[..5]) == 0x1_0000 * a + 0x1000 * b + 0x100 * c + 0x10 * d + e;
    assert Hex(s[..6]) == 0x10_0000 * a + 0x1_0000 * b + 0x1000 * c + 0x100 * d + 0x10 * e + f;
    assert Hex(s[..7]) == 0x100_0000 * a + 0x10_0000 * b + 0x1_0000 * c + 0x1000 * d + 0x100 * e + 0x10 * f + g;
  }

  function Value(d: seq<nat>): nat
    requires |d| == 8
  {
    0x1000_0000 * d[0] + 0x100_0000 * d[1] + 0x10_0000 * d[2] + 0x1_0000 * d[3]
    + 0x1000 * d[4] + 0x100 * d[5] + 0x10 * d[6] + d[7]
  }

  // Digits that need no calculation.
  function DigitOf(x: nat, y: nat): nat {
    if x == 0 then y else if y == 0 then x else if x == y then 0 else Digit(x, y)
  }

  lemma SimpleDigits(x: nat, y: nat)
    requires x < 0x10 && y < 0x10
    ensures Digit(x, y) == DigitOf(x, y)
  {
    if x == 0 {
      FourBits(y);
    } else if y == 0 {
      FourBits(x);
    }
  }

  lemma FourBits(x: nat)
    requires x < 0x10
    ensures x == x % 2 + 2 * (x / 2 % 2) + 4 * (x / 4 % 2) + 8 * (x / 8 % 2)
  {
  }

  lemma XorIs(d: seq<nat>, e: seq<nat>, r: seq<nat>)
    requires |d| == |e| == |r| == 8 && Digits(d) && Digits(e)
    requires forall i :: 0 <= i < |r| ==> r[i] == DigitOf(d[i], e[i])
    ensures Xor(Value(d), Value(e)) == Value(r)
  {
    hide Xor, Digit, Hex;
    forall i | 0 <= i < 8
      ensures Digit(d[i], e[i]) == DigitOf(d[i], e[i])
    {
      SimpleDigits(d[i], e[i]);
    }
    XorHex(d, e, r);
    EightDigits(d[0], d[1], d[2], d[3], d[4], d[5], d[6], d[7]);
    EightDigits(e[0], e[1], e[2], e[3], e[4], e[5], e[6], e[7]);
    EightDigits(r[0], r[1], r[2], r[3], r[4], r[5], r[6], r[7]);
    assert d == [d[0], d[1], d[2], d[3], d[4], d[5], d[6], d[7]];
    assert e == [e[0], e[1], e[2], e[3], e[4], e[5], e[6], e[7]];
    assert r == [r[0], r[1], r[2], r[3], r[4], r[5], r[6], r[7]];
  }

  // ---- The stages of the hash, step by step ----

  lemma Shifts(x: uint32)
    ensures ShiftRight(x, 16) == x / 0x1_0000 && ShiftRight(x, 13) == x / 0x2000
  {
    hide Shr;
    Powers();
    assert Pow2(16) == 2 * Pow2(15);
    ShrIsDiv(x, 16);
    ShrIsDiv(x, 13);
  }

  lemma Product(x: uint32, c: nat, q: nat, r: nat)
    requires x * c == TWO_TO_THE_32 * q + r && r < TWO_TO_THE_32
    ensures MulMod(x, c) == r
  {
    QuotientUnique(x * c, TWO_TO_THE_32, q, r);
  }

  lemma FinalizeSteps(h: uint32, a: uint32, b: uint32, c: uint32, d: uint32, r: uint32)
    requires Xor(h, h / 0x1_0000) == a && MulMod(a, 0x85eb_ca6b) == b
    requires Xor(b, b / 0x2000) == c && MulMod(c, 0xc2b2_ae35) == d && Xor(d, d / 0x1_0000) == r
    ensures Finalize(h) == r
  {
    hide Xor, MulMod, Shr;
    Shifts(h);
    Shifts(b);
    Shifts(d);
  }

  lemma EmptyDigits()
    ensures Digit(0xb, 4) == 0xf && Digit(0xc, 2) == 0xe && Digit(0xa, 0xf) == 5 && Digit(6, 5) == 3
    ensures Digit(0xb, 0xe) == 5
  {
  }

  lemma MoreEmptyDigits()
    ensures Digit(7, 5) == 2 && Digit(9, 1) == 8 && Digit(0xf, 4) == 0xb && Digit(9, 0xe) == 7
  {
  }

  lemma EmptyXors()
    ensures Xor(0x85eb_ca6b, 0x4_2f5e) == 0x85ef_e535
    ensures Xor(0x514e_79f9, 0x514e) == 0x514e_28b7
  {
    hide Xor, Digit;
    EmptyDigits();
    MoreEmptyDigits();
    XorIs([8, 5, 0xe, 0xb, 0xc, 0xa, 6, 0xb], [0, 0, 0, 4, 2, 0xf, 5, 0xe], [8, 5, 0xe, 0xf, 0xe, 5, 3, 5]);
    XorIs([5, 1, 4, 0xe, 7, 9, 0xf, 9], [0, 0, 0, 0, 5, 1, 4, 0xe], [5, 1, 4, 0xe, 2, 8, 0xb, 7]);
  }

  /** The empty key with seed 1. */
  lemma EmptyKey()
    ensures HashOf([], 1) == 0x514e_28b7
  {
    hide Xor, Finalize;
    EmptyXors();
    XorZero(1);
    FinalizeSteps(1, 1, 0x85eb_ca6b, 0x85ef_e535, 0x514e_79f9, 0x514e_28b7);
  }

  lemma FourDigits()
    ensures Digit(5, 0xb) == 0xe && Digit(0xd, 0xb) == 6 && Digit(4, 7) == 3 && Digit(6, 3) == 5
  {
  }

  lemma MoreFourDigits()
    ensures Digit(5, 2) == 7 && Digit(0xa, 0xf) == 5 && Digit(4, 5) == 1 && Digit(3, 5) == 6
  {
  }

  lemma FourXors()
    ensures Xor(0xbb09_5db4, 4) == 0xbb09_5db0 && Xor(0xbb09_5db0, 0xbb09) == 0xbb09_e6b9
  {
    hide Xor, Digit;
    FourDigits();
    XorIs([0xb, 0xb, 0, 9, 5, 0xd, 0xb, 4], [0, 0, 0, 0, 0, 0, 0, 4], [0xb, 0xb, 0, 9, 5, 0xd, 0xb, 0]);
    XorIs([0xb, 0xb, 0, 9, 5, 0xd, 0xb, 0], [0, 0, 0, 0, 0xb, 0xb, 0, 9], [0xb, 0xb, 0, 9, 0xe, 6, 0xb, 9]);
  }

  lemma MoreFourXors()
    ensures Xor(0xe604_6953, 0x7_3023) == 0xe603_5970 && Xor(0xf55b_a430, 0xf55b) == 0xf55b_516b
  {
    hide Xor, Digit;
    FourDigits();
    MoreFourDigits();
    XorIs([0xe, 6, 0, 4, 6, 9, 5, 3], [0, 0, 0, 7, 3, 0, 2, 3], [0xe, 6, 0, 3, 5, 9, 7, 0]);
    XorIs([0xf, 5, 5, 0xb, 0xa, 4, 3, 0], [0, 0, 0, 0, 0xf, 5, 5, 0xb], [0xf, 5, 5, 0xb, 5, 1, 6, 0xb]);
  }

  lemma FourBlock()
    ensures MixKey(0x8765_4321) == 0x5082_edee
  {
    hide MulMod;
    Product(0x8765_4321, 0xcc9e_2d51, 0x6c38_59f5, 0x5e35_0a71);
    QuotientUnique(0x5e35_0a71, 0x2_0000, 0x2f1a, 0x1_0a71);
    Product(0x8538_af1a, 0x1b87_3593, 0xe53_573d, 0x5082_edee);
  }

  lemma FourRotated()
    ensures Times5(RotL13(0x5082_edee)) == 0xbb09_5db4
  {
    hide MulMod;
    QuotientUnique(0x5082_edee, 0x8_0000, 0xa10, 0x2_edee);
    Product(0x5dbd_ca10, 5, 1, 0xd4b4_f250);
    QuotientUnique(0xd4b4_f250 + 0xe654_6b64, TWO_TO_THE_32, 1, 0xbb09_5db4);
  }

  /** A key of one whole block. */
  lemma FourByteKey()
    ensures HashOf([0x21, 0x43, 0x65, 0x87], 0) == 0xf55b_516b
  {
    hide Xor, Finalize, MixKey, Times5, RotL13;
    var key: Key := [0x21, 0x43, 0x65, 0x87];
    assert key[4 * 0..4 * 1] == key && Load(key) == 0x8765_4321;
    FourBlock();
    FourRotated();
    XorZero(0x5082_edee);
    XorComm(0, 0x5082_edee);
    FourXors();
    MoreFourXors();
    assert Blocks(key, 0, 0) == 0;
    assert Blocks(key, 0, 1) == 0xbb09_5db4;
    FinalizeSteps(0xbb09_5db0, 0xbb09_e6b9, 0xe604_6953, 0xe603_5970, 0xf55b_a430, 0xf55b_516b);
  }

  lemma ThreeDigits()
    ensures Digit(0xe, 3) == 0xd && Digit(6, 1) == 7 && Digit(3, 7) == 4 && Digit(6, 0xa) == 0xc && Digit(0xd, 6) == 0xb
  {
  }

  lemma MoreThreeDigits()
    ensures Digit(0xf, 4) == 0xb && Digit(0xd, 9) == 4 && Digit(9, 0xf) == 6
    ensures Digit(0xf, 7) == 8 && Digit(8, 0xe) == 6
  {
  }

  lemma LastThreeDigits()
    ensures Digit(7, 4) == 3 && Digit(0xe, 0xa) == 4
  {
  }

  lemma ThreeXors()
    ensures Xor(0x17a6_636e, 3) == 0x17a6_636d && Xor(0x17a6_636d, 0x17a6) == 0x17a6_74cb
  {
    hide Xor, Digit;
    ThreeDigits();
    XorIs([1, 7, 0xa, 6, 6, 3, 6, 0xe], [0, 0, 0, 0, 0, 0, 0, 3], [1, 7, 0xa, 6, 6, 3, 6, 0xd]);
    XorIs([1, 7, 0xa, 6, 6, 3, 6, 0xd], [0, 0, 0, 0, 1, 7, 0xa, 6], [1, 7, 0xa, 6, 7, 4, 0xc, 0xb]);
  }

  lemma MoreThreeXors()
    ensures Xor(0xe813_fed9, 0x7_409f) == 0xe814_be46 && Xor(0x7e4a_f87e, 0x7e4a) == 0x7e4a_8634
  {
    hide Xor, Digit;
    ThreeDigits();
    MoreThreeDigits();
    LastThreeDigits();
    XorIs([0xe, 8, 1, 3, 0xf, 0xe, 0xd, 9], [0, 0, 0, 7, 4, 0, 9, 0xf], [0xe, 8, 1, 4, 0xb, 0xe, 4, 6]);
    XorIs([7, 0xe, 4, 0xa, 0xf, 8, 7, 0xe], [0, 0, 0, 0, 7, 0xe, 4, 0xa], [7, 0xe, 4, 0xa, 8, 6, 3, 4]);
  }

  lemma ThreeBytes()
    ensures Tail([0x21, 0x43, 0x65]) == 0x65_4321
  {
    hide Xor, Digit;
    XorZero(0x65_0000);
    XorComm(0, 0x65_0000);
    XorIs([0, 0, 6, 5, 0, 0, 0, 0], [0, 0, 0, 0, 4, 3, 0, 0], [0, 0, 6, 5, 4, 3, 0, 0]);
    XorIs([0, 0, 6, 5, 4, 3, 0, 0], [0, 0, 0, 0, 0, 0, 2, 1], [0, 0, 6, 5, 4, 3, 2, 1]);
  }

  lemma ThreeTail()
    ensures MixKey(0x65_4321) == 0x17a6_636e
  {
    hide MulMod;
    Product(0x65_4321, 0xcc9e_2d51, 0x50_f00f, 0xa735_0a71);
    QuotientUnique(0xa735_0a71, 0x2_0000, 0x539a, 0x1_0a71);
    Product(0x8538_d39a, 0x1b87_3593, 0xe53_5b2a, 0x17a6_636e);
  }

  /** A key that is all tail, its bytes taken last first. */
  lemma ThreeByteKey()
    ensures HashOf([0x21, 0x43, 0x65], 0) == 0x7e4a_8634
  {
    hide Xor, Finalize, MixKey, Tail;
    ThreeBytes();
    ThreeTail();
    XorZero(0x17a6_636e);
    XorComm(0, 0x17a6_636e);
    ThreeXors();
    MoreThreeXors();
    FinalizeSteps(0x17a6_636d, 0x17a6_74cb, 0xe813_fed9, 0xe814_be46, 0x7e4a_f87e, 0x7e4a_8634);
  }
}
