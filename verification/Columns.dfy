/** How the four-byte keys spread over the columns of a row of the sketch. */
module Columns {
  import opened Words
  import opened Bits
  import opened Keys
  import opened Murmur
  import opened Sets
  import opened CountMin

  ghost predicate IsBelow(x: int, n: nat) {
    0 <= x < n
  }

  ghost function Below(n: nat): set<int> {
    set x: int | 0 <= x < n && IsBelow(x, n)
  }

  lemma {:induction false} BelowSize(n: nat)
    ensures |Below(n)| == n
  {
    if n == 0 {
      assert Below(0) == {};
    } else {
      BelowSize(n - 1);
      assert Below(n) == Below(n - 1) + {n - 1};
    }
  }

  ghost function HashWord(x: int, seed: uint32): int
    requires 0 <= x < TWO_TO_THE_32
  {
    HashOf(U32Key(x), seed)
  }

  ghost function HashImage(xs: set<int>, seed: uint32): set<int>
    requires xs <= Below(TWO_TO_THE_32)
  {
    set x | x in xs :: HashWord(x, seed)
  }

  lemma HashWordInjective(x: int, y: int, seed: uint32)
    requires 0 <= x < TWO_TO_THE_32 && 0 <= y < TWO_TO_THE_32 && HashWord(x, seed) == HashWord(y, seed)
    ensures x == y
  {
    hide HashOf, U32Key;
    HashInjective(U32Key(x), U32Key(y), seed);
    U32KeyInjective(x, y);
  }

  lemma {:induction false} ImageSize(xs: set<int>, seed: uint32)
    requires xs <= Below(TWO_TO_THE_32)
    ensures |HashImage(xs, seed)| == |xs|
  {
    hide HashWord;
    if xs == {} {
      assert HashImage(xs, seed) == {};
    } else {
      var x :| x in xs;
      ImageSize(xs - {x}, seed);
      assert HashImage(xs, seed) == HashImage(xs - {x}, seed) + {HashWord(x, seed)};
      forall y | y in xs - {x}
        ensures HashWord(y, seed) != HashWord(x, seed)
      {
        if HashWord(y, seed) == HashWord(x, seed) {
          HashWordInjective(x, y, seed);
        }
      }
    }
  }

  /** For every seed, hashing four-byte keys is a permutation of the 32-bit words. */
  lemma HashIsAPermutation(seed: uint32)
    ensures forall x: uint32, y: uint32 :: HashWord(x, seed) == HashWord(y, seed) ==> x == y
    ensures HashImage(Below(TWO_TO_THE_32), seed) == Below(TWO_TO_THE_32)
  {
    forall x: uint32, y: uint32 | HashWord(x, seed) == HashWord(y, seed)
      ensures x == y
    {
      HashWordInjective(x, y, seed);
    }
    ImageSize(Below(TWO_TO_THE_32), seed);
    InRange(seed);
    SubsetOfSameSize(HashImage(Below(TWO_TO_THE_32), seed), Below(TWO_TO_THE_32));
  }

  lemma InRange(seed: uint32)
    ensures HashImage(Below(TWO_TO_THE_32), seed) <= Below(TWO_TO_THE_32)
  {
    hide HashOf, U32Key;
    forall h | h in HashImage(Below(TWO_TO_THE_32), seed)
      ensures 0 <= h < TWO_TO_THE_32
    {
      var x :| 0 <= x < TWO_TO_THE_32 && h == HashWord(x, seed);
    }
  }

  // The numbers below `n` that leave the remainder `c`.
  ghost function Residues(width: nat, c: nat, n: nat): set<int>
    requires width >= 1
  {
    if n == 0 then {} else Residues(width, c, n - 1) + if (n - 1) % width == c then {n - 1} else {}
  }

  function ResidueCount(width: nat, c: nat, n: nat): nat
    requires width >= 1
  {
    n / width + if c < n % width then 1 else 0
  }

  lemma CountStep(width: nat, c: nat, n: nat)
    requires c < width
    ensures ResidueCount(width, c, n + 1) == ResidueCount(width, c, n) + if n % width == c then 1 else 0
  {
    var q, r := n / width, n % width;
    if r + 1 < width {
      QuotientUnique(n + 1, width, q, r + 1);
    } else {
      assert width * (q + 1) == width * q + width;
      QuotientUnique(n + 1, width, q + 1, 0);
    }
  }

  lemma {:induction false} ResiduesAre(width: nat, c: nat, n: nat)
    requires c < width
    ensures forall h :: h in Residues(width, c, n) <==> 0 <= h < n && h % width == c
  {
    if n != 0 {
      ResiduesAre(width, c, n - 1);
    }
  }

  lemma {:induction false} ResiduesSize(width: nat, c: nat, n: nat)
    requires c < width
    ensures |Residues(width, c, n)| == ResidueCount(width, c, n)
  {
    hide ResidueCount;
    if n == 0 {
      CountOfNone(width, c);
    } else {
      ResiduesSize(width, c, n - 1);
      CountStep(width, c, n - 1);
      assert n - 1 !in Residues(width, c, n - 1) by {
        ResiduesAre(width, c, n - 1);
      }
    }
  }

  lemma CountOfNone(width: nat, c: nat)
    requires c < width
    ensures ResidueCount(width, c, 0) == 0
  {
  }

  ghost function WordsInColumn(row: nat, width: nat, c: nat): set<int>
    requires width >= 1
  {
    set x: int | 0 <= x < TWO_TO_THE_32 && Column(U32Key(x), row, width) == c
  }

  /**
   The 2^32 keys spread over the columns of every row as evenly as any width allows: each column
   receives 2^32 / width of them, the first 2^32 % width columns one more. When the width divides 2^32,
   as every power of two does, all columns receive the same number.
   */
  lemma ColumnsAreBalanced(row: nat, width: nat, c: nat)
    requires c < width
    ensures |WordsInColumn(row, width, c)| == TWO_TO_THE_32 / width + if c < TWO_TO_THE_32 % width then 1 else 0
    ensures TWO_TO_THE_32 % width == 0 ==> |WordsInColumn(row, width, c)| == TWO_TO_THE_32 / width
  {
    hide WordsInColumn, Residues, HashImage;
    var seed, xs := Seed(row), WordsInColumn(row, width, c);
    WordsAreBelow(row, width, c);
    ResiduesAre(width, c, TWO_TO_THE_32);
    ResiduesSize(width, c, TWO_TO_THE_32);
    ImageSize(xs, seed);
    HashIsAPermutation(seed);
    ColumnImage(row, width, c);
  }

  lemma WordsAreBelow(row: nat, width: nat, c: nat)
    requires width >= 1
    ensures WordsInColumn(row, width, c) <= Below(TWO_TO_THE_32)
  {
    hide Column;
  }

  lemma InColumn(row: nat, width: nat, c: nat, x: int)
    requires width >= 1 && 0 <= x < TWO_TO_THE_32
    ensures x in WordsInColumn(row, width, c) <==> HashWord(x, Seed(row)) % width == c
    ensures 0 <= HashWord(x, Seed(row)) < TWO_TO_THE_32
  {
    hide HashOf, U32Key, Seed;
  }

  lemma ColumnImage(row: nat, width: nat, c: nat)
    requires c < width
    requires HashImage(Below(TWO_TO_THE_32), Seed(row)) == Below(TWO_TO_THE_32)
    requires forall h :: h in Residues(width, c, TWO_TO_THE_32) <==> 0 <= h < TWO_TO_THE_32 && h % width == c
    requires WordsInColumn(row, width, c) <= Below(TWO_TO_THE_32)
    ensures HashImage(WordsInColumn(row, width, c), Seed(row)) == Residues(width, c, TWO_TO_THE_32)
  {
    hide HashWord, Seed, Residues, WordsInColumn;
    forall h | h in Residues(width, c, TWO_TO_THE_32)
      ensures h in HashImage(WordsInColumn(row, width, c), Seed(row))
    {
      assert h in HashImage(Below(TWO_TO_THE_32), Seed(row));
      var x :| x in Below(TWO_TO_THE_32) && h == HashWord(x, Seed(row));
      InColumn(row, width, c, x);
    }
    forall h | h in HashImage(WordsInColumn(row, width, c), Seed(row))
      ensures h in Residues(width, c, TWO_TO_THE_32)
    {
      var x :| x in WordsInColumn(row, width, c) && h == HashWord(x, Seed(row));
      InColumn(row, width, c, x);
    }
  }
}
