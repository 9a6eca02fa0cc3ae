/** Keys of the frequency estimators: byte strings, and the four-byte keys of `record_u32`. */
module Keys {
  import opened Words
  import opened Bits

  type byte = x: int | 0 <= x < 0x100
  type Key = seq<byte>

  // The bytes of a word in memory on a little-endian host.
  function U32Key(x: uint32): (k: Key)
    ensures |k| == 4
  {
    [x % 0x100, x / 0x100 % 0x100, x / 0x1_0000 % 0x100, x / 0x100_0000]
  }

  // `memcpy` of four bytes into a word.
  function Load(b: seq<byte>): uint32
    requires |b| == 4
  {
    var b0: int, b1: int, b2: int, b3: int := b[0], b[1], b[2], b[3];
    b0 + 0x100 * b1 + 0x1_0000 * b2 + 0x100_0000 * b3
  }

  lemma LoadU32Key(x: uint32)
    ensures Load(U32Key(x)) == x
  {
    assert x / 0x1_0000 == x / 0x100 / 0x100;
    assert x / 0x100_0000 == x / 0x1_0000 / 0x100;
  }

  lemma U32KeyLoad(b: seq<byte>)
    requires |b| == 4
    ensures U32Key(Load(b)) == b
  {
    var b0: int, b1: int, b2: int, b3: int := b[0], b[1], b[2], b[3];
    var x := Load(b);
    QuotientUnique(x, 0x100, b1 + 0x100 * b2 + 0x1_0000 * b3, b0);
    QuotientUnique(x / 0x100, 0x100, b2 + 0x100 * b3, b1);
    QuotientUnique(x, 0x1_0000, b2 + 0x100 * b3, b0 + 0x100 * b1);
    QuotientUnique(x / 0x1_0000, 0x100, b3, b2);
    QuotientUnique(x, 0x100_0000, b3, b0 + 0x100 * b1 + 0x1_0000 * b2);
  }

  // Different words have different keys.
  lemma U32KeyInjective(x: uint32, y: uint32)
    requires U32Key(x) == U32Key(y)
    ensures x == y
  {
    LoadU32Key(x);
    LoadU32Key(y);
  }

  function KeysOf(xs: seq<uint32>): (ks: seq<Key>)
    ensures |ks| == |xs|
  {
    seq(|xs|, i requires 0 <= i < |xs| => U32Key(xs[i]))
  }

  lemma KeysOfSnoc(xs: seq<uint32>, x: uint32)
    ensures KeysOf(xs + [x]) == KeysOf(xs) + [U32Key(x)]
  {
  }

  // Counting keys is counting words.
  lemma {:induction false} KeyCount(xs: seq<uint32>, x: uint32)
    ensures multiset(KeysOf(xs))[U32Key(x)] == multiset(xs)[x]
  {
    if xs == [] {
    } else {
      var n := |xs| - 1;
      KeyCount(xs[..n], x);
      assert xs == xs[..n] + [xs[n]];
      KeysOfSnoc(xs[..n], xs[n]);
      if U32Key(xs[n]) == U32Key(x) {
        U32KeyInjective(xs[n], x);
      }
    }
  }
}
