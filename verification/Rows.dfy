/** The rows of the sketch hash every key differently. */
module Rows {
  import opened Words
  import opened Bits
  import opened Keys
  import opened Murmur
  import opened CountMin

  // For a fixed key every stage is one-to-one in the state.
  lemma BlockUndone(h: uint32, h': uint32, k: uint32)
    requires MixBlock(h, k) == MixBlock(h', k)
    ensures h == h'
  {
    hide Times5, RotL13, Xor32, MixKey;
    Times5Injective(RotL13(Xor32(h, MixKey(k))), RotL13(Xor32(h', MixKey(k))));
    RotL13Injective(Xor32(h, MixKey(k)), Xor32(h', MixKey(k)));
    XorInjective(MixKey(k), h, h');
  }

  lemma {:induction false} BlocksUndone(key: Key, s: uint32, s': uint32, n: nat)
    requires 4 * n <= |key| && Blocks(key, s, n) == Blocks(key, s', n)
    ensures s == s'
  {
    hide MixBlock, Load;
    if n > 0 {
      BlockUndone(Blocks(key, s, n - 1), Blocks(key, s', n - 1), Load(key[4 * (n - 1)..4 * n]));
      BlocksUndone(key, s, s', n - 1);
    }
  }

  /** For a fixed key, of any length, different seeds give different hashes. */
  lemma SeedInjective(key: Key, s: uint32, s': uint32)
    requires HashOf(key, s) == HashOf(key, s')
    ensures s == s'
  {
    hide Blocks, Finalize, Xor32, MixKey, Tail;
    var n, len := |key| / 4, |key| % TWO_TO_THE_32;
    var b, b' := Blocks(key, s, n), Blocks(key, s', n);
    var h := if |key| % 4 == 0 then b else Xor32(b, MixKey(Tail(key)));
    var h' := if |key| % 4 == 0 then b' else Xor32(b', MixKey(Tail(key)));
    FinalizeInjective(Xor32(h, len), Xor32(h', len));
    XorInjective(len, h, h');
    if |key| % 4 != 0 {
      XorInjective(MixKey(Tail(key)), b, b');
    }
    BlocksUndone(key, s, s', n);
  }

  /** The first two seeds, and the step from each to the next. */
  lemma FirstSeeds(i: nat)
    ensures Seed(0) == 0x9e37_79b9 && Seed(1) == 0xefb4_3b70
    ensures Seed(i + 1) == (Seed(i) + 0x517c_c1b7) % 0x1_0000_0000
  {
    SumOfRemainder(0x517c_c1b7, 0x9e37_79b9 + i * 0x517c_c1b7);
  }

  // The multiplier of the seeds is odd.
  lemma SeedsDiffer(i: nat, j: nat)
    requires i < TWO_TO_THE_32 && j < TWO_TO_THE_32 && Seed(i) == Seed(j)
    ensures i == j
  {
    hide MulMod;
    SeedIsSum(i);
    SeedIsSum(j);
    MulModInverse(i, 0x517c_c1b7, 0x2d0eec07, 0xe57ae01);
    MulModInverse(j, 0x517c_c1b7, 0x2d0eec07, 0xe57ae01);
  }

  lemma SeedIsSum(i: nat)
    requires i < TWO_TO_THE_32
    ensures Seed(i) == (0x9e37_79b9 + MulMod(i, 0x517c_c1b7)) % TWO_TO_THE_32
  {
    SumOfRemainder(0x9e37_79b9, i * 0x517c_c1b7);
  }

  lemma SumOfRemainder(c: nat, p: nat)
    ensures (c + p) % TWO_TO_THE_32 == (c + p % TWO_TO_THE_32) % TWO_TO_THE_32
  {
    var q, r := p / TWO_TO_THE_32, p % TWO_TO_THE_32;
    var k, m := (c + r) / TWO_TO_THE_32, (c + r) % TWO_TO_THE_32;
    QuotientUnique(c + p, TWO_TO_THE_32, q + k, m);
  }

  /** No two of the 2^32 rows hash any key to the same word. */
  lemma RowsDiffer(key: Key, i: nat, j: nat)
    requires i < j < TWO_TO_THE_32
    ensures HashOf(key, Seed(i)) != HashOf(key, Seed(j))
  {
    hide HashOf, Seed;
    if HashOf(key, Seed(i)) == HashOf(key, Seed(j)) {
      SeedInjective(key, Seed(i), Seed(j));
      SeedsDiffer(i, j);
    }
  }
}
