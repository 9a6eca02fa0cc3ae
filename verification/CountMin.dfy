/** The count-min sketch: `depth` rows of counters, each key hashed to one column of every row. */
module CountMin {
  import opened Words
  import opened Keys
  import opened Murmur

  const MAX_U64: nat := TWO_TO_THE_64 - 1

  function Seed(i: nat): uint32 {
    (0x9e37_79b9 + i * 0x517c_c1b7) % TWO_TO_THE_32
  }

  function Column(key: Key, row: nat, width: nat): (c: nat)
    requires width >= 1
    ensures c < width
  {
    HashOf(key, Seed(row)) % width
  }

  // ---- What a cell holds after a stream of keys ----

  ghost function Cell(stream: seq<Key>, row: nat, width: nat, j: nat): nat
    requires width >= 1
  {
    if stream == [] then 0
    else
      var n := |stream| - 1;
      Cell(stream[..n], row, width, j) + if Column(stream[n], row, width) == j then 1 else 0
  }

  lemma CellSnoc(stream: seq<Key>, key: Key, row: nat, width: nat, j: nat)
    requires width >= 1
    ensures Cell(stream + [key], row, width, j) ==
        Cell(stream, row, width, j) + if Column(key, row, width) == j then 1 else 0
  {
    assert (stream + [key])[..|stream|] == stream;
  }

  // The least cell of the key over the first `n` rows, starting from the largest counter value.
  ghost function LeastCell(stream: seq<Key>, width: nat, n: nat, key: Key): nat
    requires width >= 1
  {
    if n == 0 then MAX_U64
    else
      var c := Cell(stream, n - 1, width, Column(key, n - 1, width));
      var m := LeastCell(stream, width, n - 1, key);
      if c < m then c else m
  }

  class CountMinSketch {
    const width: nat
    const depth: nat
    const table: array2<nat>
    const seeds: seq<uint32>
    ghost var stream: seq<Key>

    ghost predicate Valid()
      reads this, table
    {
      && table.Length0 == depth && table.Length1 == width
      && |seeds| == depth && (forall i :: 0 <= i < depth ==> seeds[i] == Seed(i))
      && forall i: nat, j: nat :: i < depth && j < width ==> table[i, j] == Cell(stream, i, width, j)
    }

    constructor (width: nat, depth: nat)
      ensures Valid() && fresh(table) && stream == []
      ensures this.width == width && this.depth == depth
    {
      this.width, this.depth := width, depth;
      this.table := new nat[depth, width]((_, _) => 0);
      this.seeds := seq(depth, i requires i >= 0 => Seed(i));
      this.stream := [];
    }

    // The column is a remainder by the width.
    method Record(key: Key)
      requires Valid() && width >= 1
      modifies this, table
      ensures Valid() && stream == old(stream) + [key]
    {
      for i := 0 to depth
        invariant table.Length0 == depth && table.Length1 == width && stream == old(stream)
        invariant forall r: nat, j: nat :: r < i && j < width ==> table[r, j] == Cell(stream + [key], r, width, j)
        invariant forall r: nat, j: nat :: i <= r < depth && j < width ==> table[r, j] == Cell(stream, r, width, j)
      {
        hide Cell, HashOf;
        var h := Hash(key, seeds[i]);
        var col := h % width;
        forall j: nat | j < width
          ensures Cell(stream + [key], i, width, j) == Cell(stream, i, width, j) + if col == j then 1 else 0
        {
          CellSnoc(stream, key, i, width, j);
        }
        ghost var cells := seq(width, j requires 0 <= j < width reads table => table[i, j]);
        table[i, col] := table[i, col] + 1;
        forall r: nat, j: nat | r < i + 1 && j < width
          ensures table[r, j] == Cell(stream + [key], r, width, j)
        {
          if r == i {
            assert cells[j] == Cell(stream, i, width, j);
          }
        }
      }
      stream := stream + [key];
    }

    method Estimate(key: Key) returns (e: nat)
      requires Valid() && width >= 1
      ensures e == LeastCell(stream, width, depth, key)
    {
      hide Cell, HashOf;
      e := MAX_U64;
      for i := 0 to depth
        invariant e == LeastCell(stream, width, i, key)
      {
        hide Cell, HashOf;
        var h := Hash(key, seeds[i]);
        var col := h % width;
        if table[i, col] < e {
          e := table[i, col];
        }
      }
    }

    method Reset()
      requires Valid()
      modifies this, table
      ensures Valid() && stream == []
    {
      for i := 0 to depth
        invariant forall r, j :: 0 <= r < i && 0 <= j < width ==> table[r, j] == 0
      {
        for j := 0 to width
          invariant forall r, c :: 0 <= r < i && 0 <= c < width ==> table[r, c] == 0
          invariant forall c :: 0 <= c < j ==> table[i, c] == 0
        {
          table[i, j] := 0;
        }
      }
      stream := [];
    }
  }

  // ---- The sketch as a table of sums of frequencies ----

  ghost function SumOfFrequencies(ks: set<Key>, m: multiset<Key>): nat {
    if ks == {} then 0 else
      var k :| k in ks;
      m[k] + SumOfFrequencies(ks - {k}, m)
  }

  lemma {:induction false} SumOut(ks: set<Key>, m: multiset<Key>, k: Key)
    requires k in ks
    ensures SumOfFrequencies(ks, m) == m[k] + SumOfFrequencies(ks - {k}, m)
  {
    var x :| x in ks && SumOfFrequencies(ks, m) == m[x] + SumOfFrequencies(ks - {x}, m);
    if x != k {
      SumOut(ks - {x}, m, k);
      SumOut(ks - {k}, m, x);
      assert ks - {x} - {k} == ks - {k} - {x};
    }
  }

  lemma {:induction false} SumSnoc(ks: set<Key>, m: multiset<Key>, key: Key)
    ensures SumOfFrequencies(ks, m + multiset{key}) == SumOfFrequencies(ks, m) + if key in ks then 1 else 0
  {
    if ks != {} {
      var k :| k in ks;
      SumSnoc(ks - {k}, m, key);
      SumOut(ks, m, k);
      SumOut(ks, m + multiset{key}, k);
    }
  }

  ghost function KeysInColumn(all: set<Key>, row: nat, width: nat, j: nat): set<Key>
    requires width >= 1
  {
    set k | k in all && Column(k, row, width) == j
  }

  lemma {:induction false} SumOfNothing(ks: set<Key>)
    ensures SumOfFrequencies(ks, multiset{}) == 0
  {
    if ks != {} {
      var k :| k in ks;
      SumOut(ks, multiset{}, k);
      SumOfNothing(ks - {k});
    }
  }

  // Every cell is the sum of the true frequencies of the keys hashed to it.
  lemma {:induction false} CellIsSumOfFrequencies(stream: seq<Key>, all: set<Key>, row: nat, width: nat, j: nat)
    requires width >= 1 && forall k :: k in stream ==> k in all
    ensures Cell(stream, row, width, j) ==
        SumOfFrequencies(KeysInColumn(all, row, width, j), multiset(stream))
  {
    if stream == [] {
      SumOfNothing(KeysInColumn(all, row, width, j));
    } else {
      var n := |stream| - 1;
      CellIsSumOfFrequencies(stream[..n], all, row, width, j);
      assert stream == stream[..n] + [stream[n]];
      assert stream[n] in all;
      SumSnoc(KeysInColumn(all, row, width, j), multiset(stream[..n]), stream[n]);
    }
  }

  // The table depends on the frequencies only, not on the order of the stream.
  lemma OrderDoesNotMatter(a: seq<Key>, b: seq<Key>, row: nat, width: nat, j: nat)
    requires width >= 1 && multiset(a) == multiset(b)
    ensures Cell(a, row, width, j) == Cell(b, row, width, j)
  {
    var all := set k | k in a;
    forall k | k in b
      ensures k in all
    {
      assert k in multiset(a);
    }
    CellIsSumOfFrequencies(a, all, row, width, j);
    CellIsSumOfFrequencies(b, all, row, width, j);
  }

  ghost function RowSum(stream: seq<Key>, row: nat, width: nat, n: nat): nat
    requires width >= 1
  {
    if n == 0 then 0 else RowSum(stream, row, width, n - 1) + Cell(stream, row, width, n - 1)
  }

  // Every row sums to the length of the stream.
  lemma {:induction false} RowSumIsLength(stream: seq<Key>, row: nat, width: nat)
    requires width >= 1
    ensures RowSum(stream, row, width, width) == |stream|
  {
    if stream == [] {
      RowSumOfNothing(row, width, width);
    } else {
      var n := |stream| - 1;
      RowSumIsLength(stream[..n], row, width);
      assert stream == stream[..n] + [stream[n]];
      RowSumSnoc(stream[..n], stream[n], row, width, width);
    }
  }

  lemma {:induction false} RowSumOfNothing(row: nat, width: nat, n: nat)
    requires width >= 1
    ensures RowSum([], row, width, n) == 0
  {
    if n != 0 {
      RowSumOfNothing(row, width, n - 1);
    }
  }

  lemma {:induction false} RowSumSnoc(stream: seq<Key>, key: Key, row: nat, width: nat, n: nat)
    requires width >= 1
    ensures RowSum(stream + [key], row, width, n) ==
        RowSum(stream, row, width, n) + if Column(key, row, width) < n then 1 else 0
  {
    if n != 0 {
      RowSumSnoc(stream, key, row, width, n - 1);
      CellSnoc(stream, key, row, width, n - 1);
    }
  }

  // At most length / t columns of a row hold t or more.
  lemma HeavyColumns(stream: seq<Key>, row: nat, width: nat, t: nat)
    requires width >= 1
    ensures t * |Heavy(stream, row, width, t, width)| <= |stream|
  {
    HeavyPrefix(stream, row, width, t, width);
    RowSumIsLength(stream, row, width);
  }

  ghost function Heavy(stream: seq<Key>, row: nat, width: nat, t: nat, n: nat): set<nat>
    requires width >= 1
  {
    set j: nat | j < n && Cell(stream, row, width, j) >= t
  }

  lemma {:induction false} HeavyPrefix(stream: seq<Key>, row: nat, width: nat, t: nat, n: nat)
    requires width >= 1
    ensures t * |Heavy(stream, row, width, t, n)| <= RowSum(stream, row, width, n)
  {
    hide Cell;
    if n == 0 {
      assert Heavy(stream, row, width, t, 0) == {};
    } else {
      HeavyPrefix(stream, row, width, t, n - 1);
      HeavyStep(stream, row, width, t, n);
    }
  }

  lemma HeavyStep(stream: seq<Key>, row: nat, width: nat, t: nat, n: nat)
    requires width >= 1 && n >= 1
    ensures if Cell(stream, row, width, n - 1) >= t
      then t * |Heavy(stream, row, width, t, n)| == t * |Heavy(stream, row, width, t, n - 1)| + t
      else Heavy(stream, row, width, t, n) == Heavy(stream, row, width, t, n - 1)
  {
    hide Cell;
    var before := Heavy(stream, row, width, t, n - 1);
    if Cell(stream, row, width, n - 1) >= t {
      assert Heavy(stream, row, width, t, n) == before + {n - 1};
      assert t * (|before| + 1) == t * |before| + t;
    } else {
      assert Heavy(stream, row, width, t, n) == before;
    }
  }

  // ---- The estimate ----

  lemma {:induction false} CellBounds(stream: seq<Key>, row: nat, width: nat, key: Key)
    requires width >= 1
    ensures multiset(stream)[key] <= Cell(stream, row, width, Column(key, row, width)) <= |stream|
  {
    if stream != [] {
      var n := |stream| - 1;
      CellBounds(stream[..n], row, width, key);
      assert stream == stream[..n] + [stream[n]];
    }
  }

  // A cell that no other key of the stream shares is exact.
  lemma {:induction false} IsolatedCell(stream: seq<Key>, row: nat, width: nat, key: Key)
    requires width >= 1
    requires forall k :: k in stream && k != key ==> Column(k, row, width) != Column(key, row, width)
    ensures Cell(stream, row, width, Column(key, row, width)) == multiset(stream)[key]
  {
    if stream != [] {
      var n := |stream| - 1;
      assert stream == stream[..n] + [stream[n]];
      assert stream[n] in stream;
      IsolatedCell(stream[..n], row, width, key);
    }
  }

  // The estimate never falls below the true frequency and never exceeds the stream's length.
  lemma {:induction false} EstimateBounds(stream: seq<Key>, width: nat, depth: nat, key: Key)
    requires width >= 1 && |stream| <= MAX_U64
    ensures multiset(stream)[key] <= LeastCell(stream, width, depth, key)
    ensures depth >= 1 ==> LeastCell(stream, width, depth, key) <= |stream|
  {
    hide Cell, Column;
    if depth == 0 {
      CellBounds(stream, 0, width, key);
    } else {
      EstimateBounds(stream, width, depth - 1, key);
      CellBounds(stream, depth - 1, width, key);
    }
  }

  // One row without a collision makes it exact.
  lemma {:induction false} EstimateExact(stream: seq<Key>, width: nat, depth: nat, key: Key, row: nat)
    requires width >= 1 && |stream| <= MAX_U64 && row < depth
    requires forall k :: k in stream && k != key ==> Column(k, row, width) != Column(key, row, width)
    ensures LeastCell(stream, width, depth, key) == multiset(stream)[key]
  {
    hide Cell, Column;
    EstimateBounds(stream, width, depth, key);
    if row == depth - 1 {
      IsolatedCell(stream, row, width, key);
    } else {
      EstimateExact(stream, width, depth - 1, key, row);
    }
  }
}
