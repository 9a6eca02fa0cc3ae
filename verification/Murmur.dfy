/** The Murmur-style hash of the count-min sketch, on unsigned 32-bit words. */
module Murmur {
  import opened Words
  import opened Bits
  import opened Keys

  // `(x << k) | (x >> (32 - k))`, see RotationsAreOrs.
  function RotL15(x: uint32): uint32 {
    x % 0x2_0000 * 0x8000 + x / 0x2_0000
  }

  function RotL13(x: uint32): uint32 {
    x % 0x8_0000 * 0x2000 + x / 0x8_0000
  }

  function Xor32(x: uint32, y: uint32): uint32 {
    Pow2Of32();
    XorBound(x, y, 32);
    Xor(x, y)
  }

  function Times5(x: uint32): uint32 {
    (MulMod(x, 5) + 0xe654_6b64) % TWO_TO_THE_32
  }

  function MixKey(k: uint32): uint32 {
    MulMod(RotL15(MulMod(k, 0xcc9e_2d51)), 0x1b87_3593)
  }

  function MixBlock(h: uint32, k: uint32): uint32 {
    Times5(RotL13(Xor32(h, MixKey(k))))
  }

  // The hash state after the first `n` four-byte blocks.
  function Blocks(key: Key, seed: uint32, n: nat): uint32
    requires 4 * n <= |key|
  {
    if n == 0 then seed
    else MixBlock(Blocks(key, seed, n - 1), Load(key[4 * (n - 1)..4 * n]))
  }

  // The one to three bytes after the last block, gathered by the fall-through cases.
  function Tail(key: Key): uint32 {
    var t := |key| / 4 * 4;
    var r := |key| % 4;
    var k := if r == 3 then Xor32(0, (key[t + 2] as int) * 0x1_0000) else 0;
    var k' := if r >= 2 then Xor32(k, (key[t + 1] as int) * 0x100) else k;
    if r >= 1 then Xor32(k', key[t]) else k'
  }

  // `x >> n`.
  function ShiftRight(x: uint32, n: nat): uint32 {
    ShrBound(x, n);
    Shr(x, n)
  }

  function Fold16(x: uint32): uint32 {
    Xor32(x, ShiftRight(x, 16))
  }

  function Fold13(x: uint32): uint32 {
    Xor32(x, ShiftRight(x, 13))
  }

  function Finalize(h: uint32): uint32 {
    Fold16(MulMod(Fold13(MulMod(Fold16(h), 0x85eb_ca6b)), 0xc2b2_ae35))
  }

  function HashOf(key: Key, seed: uint32): uint32 {
    var h := Blocks(key, seed, |key| / 4);
    var h' := if |key| % 4 == 0 then h else Xor32(h, MixKey(Tail(key)));
    Finalize(Xor32(h', |key| % TWO_TO_THE_32))
  }

  method Hash(key: Key, seed: uint32) returns (h: uint32)
    ensures h == HashOf(key, seed)
  {
    hide MulMod, RotL15, RotL13, Xor32, ShiftRight;
    h := seed;
    var nblocks := |key| / 4;
    for i := 0 to nblocks
      invariant h == Blocks(key, seed, i)
    {
      hide MulMod, RotL15, RotL13, Xor32, ShiftRight;
      var k := Load(key[4 * i..4 * (i + 1)]);
      k := MulMod(k, 0xcc9e_2d51);
      k := RotL15(k);
      k := MulMod(k, 0x1b87_3593);
      h := Xor32(h, k);
      h := RotL13(h);
      h := (MulMod(h, 5) + 0xe654_6b64) % TWO_TO_THE_32;
    }
    var tail := nblocks * 4;
    var rest := |key| % 4;
    var k1: uint32 := 0;
    if rest == 3 { k1 := Xor32(k1, (key[tail + 2] as int) * 0x1_0000); }
    if rest >= 2 { k1 := Xor32(k1, (key[tail + 1] as int) * 0x100); }
    if rest >= 1 {
      k1 := Xor32(k1, key[tail]);
      k1 := MulMod(k1, 0xcc9e_2d51);
      k1 := RotL15(k1);
      k1 := MulMod(k1, 0x1b87_3593);
      h := Xor32(h, k1);
    }
    h := Xor32(h, |key| % TWO_TO_THE_32);
    h := Xor32(h, ShiftRight(h, 16));
    h := MulMod(h, 0x85eb_ca6b);
    h := Xor32(h, ShiftRight(h, 13));
    h := MulMod(h, 0xc2b2_ae35);
    h := Xor32(h, ShiftRight(h, 16));
  }

  // ---- Four-byte keys: every stage of the hash can be undone ----

  // The parts of a rotation by `k` occupy different bits.
  lemma RotationIsOr(x: uint32, k: nat, p: nat, q: nat)
    requires k <= 32 && p == Pow2(k) && q == Pow2(32 - k) && p * q == TWO_TO_THE_32
    ensures Or(Shl(x, k), Shr(x, 32 - k)) == x % q * p + x / q
  {
    hide Or, Pow2, Shr;
    var h, l := x % q, x / q;
    assert x == q * l + h;
    assert x * p == TWO_TO_THE_32 * l + h * p by {
      assert x * p == q * l * p + h * p;
      assert q * l * p == p * q * l;
    }
    PartBelow(h, p, q);
    QuotientUnique(x * p, TWO_TO_THE_32, l, h * p);
    ShrIsDiv(x, 32 - k);
    QuotientBelow(x, p, q);
    OrDisjoint(h, l, k);
  }

  lemma PartBelow(h: nat, p: nat, q: nat)
    requires h < q && p >= 1
    ensures h * p < p * q
  {
  }

  lemma QuotientBelow(x: nat, p: nat, q: nat)
    requires q >= 1 && x < p * q
    ensures x / q < p
  {
  }

  /** The two rotations are the source's or of two shifts. */
  lemma RotationsAreOrs(x: uint32)
    ensures RotL15(x) == Or(Shl(x, 15), Shr(x, 17))
    ensures RotL13(x) == Or(Shl(x, 13), Shr(x, 19))
  {
    Powers();
    RotationIsOr(x, 15, 0x8000, 0x2_0000);
    RotationIsOr(x, 13, 0x2000, 0x8_0000);
  }

  lemma Powers()
    ensures Pow2(13) == 0x2000 && Pow2(15) == 0x8000 && Pow2(17) == 0x2_0000 && Pow2(19) == 0x8_0000
  {
    assert Pow2(2) == 4;
    Pow2Add(2, 2);
    Pow2Add(4, 4);
    Pow2Add(8, 4);
    assert Pow2(13) == 2 * Pow2(12);
    Pow2Add(13, 2);
    Pow2Add(15, 2);
    Pow2Add(17, 2);
  }

  lemma RotL15Injective(x: uint32, y: uint32)
    requires RotL15(x) == RotL15(y)
    ensures x == y
  {
    QuotientUnique(RotL15(x), 0x8000, x % 0x2_0000, x / 0x2_0000);
    QuotientUnique(RotL15(y), 0x8000, y % 0x2_0000, y / 0x2_0000);
  }

  lemma RotL13Injective(x: uint32, y: uint32)
    requires RotL13(x) == RotL13(y)
    ensures x == y
  {
    QuotientUnique(RotL13(x), 0x2000, x % 0x8_0000, x / 0x8_0000);
    QuotientUnique(RotL13(y), 0x2000, y % 0x8_0000, y / 0x8_0000);
  }

  lemma Times5Injective(x: uint32, y: uint32)
    requires Times5(x) == Times5(y)
    ensures x == y
  {
    MulModInverse(x, 5, 0xcccc_cccd, 4);
    MulModInverse(y, 5, 0xcccc_cccd, 4);
  }

  lemma XorInjective(h: uint32, x: uint32, y: uint32)
    requires Xor32(h, x) == Xor32(h, y) || Xor32(x, h) == Xor32(y, h)
    ensures x == y
  {
    XorComm(h, x);
    XorComm(h, y);
    XorTwice(x, h);
    XorTwice(y, h);
  }

  lemma MixKeyInjective(x: uint32, y: uint32)
    requires MixKey(x) == MixKey(y)
    ensures x == y
  {
    hide MulMod, RotL15;
    var c1, c2 := 0xcc9e_2d51, 0x1b87_3593;
    MulModInverse(RotL15(MulMod(x, c1)), c2, 0x56ed_309b, 0x958_ed66);
    MulModInverse(RotL15(MulMod(y, c1)), c2, 0x56ed_309b, 0x958_ed66);
    RotL15Injective(MulMod(x, c1), MulMod(y, c1));
    MulModInverse(x, c1, 0xdee1_3bb1, 0xb225_3208);
    MulModInverse(y, c1, 0xdee1_3bb1, 0xb225_3208);
  }

  lemma MixBlockInjective(h: uint32, x: uint32, y: uint32)
    requires MixBlock(h, x) == MixBlock(h, y)
    ensures x == y
  {
    hide Times5, RotL13, Xor32, MixKey;
    Times5Injective(RotL13(Xor32(h, MixKey(x))), RotL13(Xor32(h, MixKey(y))));
    RotL13Injective(Xor32(h, MixKey(x)), Xor32(h, MixKey(y)));
    XorInjective(h, MixKey(x), MixKey(y));
    MixKeyInjective(x, y);
  }

  lemma Fold16Twice(x: uint32)
    ensures Fold16(Fold16(x)) == x
  {
    hide Xor, Shr;
    var s := Shr(x, 16);
    XorShift(x, s, 16);
    ShrShr(x, 16, 16);
    Vanishes(x, 32);
    XorZero(s);
    XorTwice(x, s);
  }

  lemma Vanishes(x: uint32, n: nat)
    requires n >= 32
    ensures Shr(x, n) == 0
  {
    Pow2Of32();
    ShrShr(x, 32, n - 32);
    ShrBound(x, 32);
    ShrBound(0, n - 32);
  }

  lemma Fold13Inverse(x: uint32)
    ensures var y := Fold13(x); Xor(Xor(y, Shr(y, 13)), Shr(y, 26)) == x
  {
    hide Xor, Shr;
    var s1, s2 := Shr(x, 13), Shr(x, 26);
    ShrShr(x, 13, 13);
    ShrShr(x, 13, 26);
    Vanishes(x, 39);
    XorShift(x, s1, 13);
    XorShift(x, s1, 26);
    XorZero(s2);
    Cancel(x, s1, s2);
  }

  lemma Cancel(x: nat, a: nat, b: nat)
    ensures Xor(Xor(Xor(x, a), Xor(a, b)), b) == x
  {
    XorAssoc(Xor(x, a), a, b);
    XorTwice(x, a);
    XorTwice(x, b);
  }

  lemma FinalizeInjective(x: uint32, y: uint32)
    requires Finalize(x) == Finalize(y)
    ensures x == y
  {
    hide MulMod, Fold16, Fold13;
    var c, d := 0x85eb_ca6b, 0xc2b2_ae35;
    Fold16Twice(MulMod(Fold13(MulMod(Fold16(x), c)), d));
    Fold16Twice(MulMod(Fold13(MulMod(Fold16(y), c)), d));
    MulModInverse(Fold13(MulMod(Fold16(x), c)), d, 0x7ed1_b41d, 0x6073_6e9a);
    MulModInverse(Fold13(MulMod(Fold16(y), c)), d, 0x7ed1_b41d, 0x6073_6e9a);
    Fold13Inverse(MulMod(Fold16(x), c));
    Fold13Inverse(MulMod(Fold16(y), c));
    MulModInverse(Fold16(x), c, 0xa5cb_9243, 0x56bb_77f4);
    MulModInverse(Fold16(y), c, 0xa5cb_9243, 0x56bb_77f4);
    Fold16Twice(x);
    Fold16Twice(y);
  }

  // On four-byte keys the hash is one-to-one, whatever the seed.
  lemma HashInjective(key: Key, key': Key, seed: uint32)
    requires |key| == 4 && |key'| == 4 && HashOf(key, seed) == HashOf(key', seed)
    ensures key == key'
  {
    hide MixBlock, Finalize, Load, Xor32;
    assert key[4 * 0..4 * 1] == key && key'[4 * 0..4 * 1] == key';
    var b, b' := Blocks(key, seed, 1), Blocks(key', seed, 1);
    assert b == MixBlock(seed, Load(key)) && b' == MixBlock(seed, Load(key')) by {
      assert Blocks(key, seed, 0) == seed && Blocks(key', seed, 0) == seed;
    }
    FinalizeInjective(Xor32(b, 4), Xor32(b', 4));
    XorInjective(4, b, b');
    MixBlockInjective(seed, Load(key), Load(key'));
    U32KeyLoad(key);
    U32KeyLoad(key');
  }
}
