/** Misra-Gries with at most `k - 1` counters and a decrement-all phase when they run out. */
module MisraGries {
  import opened Keys
  import opened Sets

  type Counters = map<Key, nat>

  // ---- The counters as a function of the stream ----

  // Every counter loses one; those that reach zero are dropped.
  function DecrementAll(c: Counters): Counters {
    map x | x in c && c[x] != 1 :: if c[x] == 0 then 0 else c[x] - 1
  }

  function Step(c: Counters, k: nat, key: Key): Counters {
    if key in c then c[key := c[key] + 1]
    else if |c| + 1 < k then c[key := 1]
    else DecrementAll(c)
  }

  function Run(stream: seq<Key>, k: nat): Counters {
    if stream == [] then map[] else Step(Run(stream[..|stream| - 1], k), k, stream[|stream| - 1])
  }

  function EstimateOf(c: Counters, key: Key): nat {
    if key in c then c[key] else 0
  }

  // The number of decrement-all phases.
  function Phases(stream: seq<Key>, k: nat): nat {
    if stream == [] then 0
    else
      var c, key := Run(stream[..|stream| - 1], k), stream[|stream| - 1];
      Phases(stream[..|stream| - 1], k) + if key !in c && |c| + 1 >= k then 1 else 0
  }

  class HeavyHitters {
    const k: nat
    var n: nat
    var counters: Counters
    ghost var stream: seq<Key>

    ghost predicate Valid()
      reads this
    {
      k >= 2 && n == |stream| && counters == Run(stream, k)
    }

    constructor (k: nat)
      requires k >= 2
      ensures Valid() && stream == [] && this.k == k
    {
      this.k, n, counters, stream := k, 0, map[], [];
    }

    method Record(key: Key)
      requires Valid()
      modifies this
      ensures Valid() && stream == old(stream) + [key]
    {
      RunSnoc(stream, k, key);
      Accounting(stream, k);
      n := n + 1;
      stream := stream + [key];
      if key in counters {
        counters := counters[key := counters[key] + 1];
        return;
      }
      if |counters| + 1 < k {
        counters := counters[key := 1];
        return;
      }
      counters := Decrement(counters);
    }

    method Estimate(key: Key) returns (e: nat)
      requires Valid()
      ensures e == EstimateOf(Run(stream, k), key)
    {
      e := if key in counters then counters[key] else 0;
    }

    method Reset()
      requires Valid()
      modifies this
      ensures Valid() && stream == []
    {
      n, counters, stream := 0, map[], [];
    }
  }

  // The decrement-all loop: visits the counters in any order, erasing while it goes.
  method Decrement(c: Counters) returns (r: Counters)
    requires forall x :: x in c ==> c[x] > 0
    ensures r == DecrementAll(c)
  {
    r := c;
    var rest := c.Keys;
    while rest != {}
      invariant rest <= c.Keys && rest <= r.Keys
      invariant forall x :: x in rest ==> r[x] == c[x]
      invariant forall x :: x in c && x !in rest ==> (x in r <==> c[x] != 1)
      invariant forall x :: x in r ==> x in c && (x in rest || r[x] == c[x] - 1)
      decreases rest
    {
      var cur :| cur in rest;
      rest := rest - {cur};
      if r[cur] - 1 == 0 {
        r := r - {cur};
      } else {
        r := r[cur := r[cur] - 1];
      }
    }
  }

  lemma RunSnoc(stream: seq<Key>, k: nat, key: Key)
    ensures Run(stream + [key], k) == Step(Run(stream, k), k, key)
    ensures Phases(stream + [key], k) == Phases(stream, k) +
        if key !in Run(stream, k) && |Run(stream, k)| + 1 >= k then 1 else 0
  {
    assert (stream + [key])[..|stream|] == stream;
  }

  // ---- Accounting ----

  ghost function Sum(c: Counters): nat {
    if c == map[] then 0 else
      var x :| x in c;
      c[x] + Sum(c - {x})
  }

  lemma {:induction false} SumOut(c: Counters, x: Key)
    requires x in c
    ensures Sum(c) == c[x] + Sum(c - {x})
  {
    var y :| y in c && Sum(c) == c[y] + Sum(c - {y});
    if x != y {
      SumOut(c - {y}, x);
      SumOut(c - {x}, y);
      assert c - {x} - {y} == c - {y} - {x};
    }
  }

  lemma SumUpdate(c: Counters, x: Key, v: nat)
    ensures Sum(c[x := v]) == Sum(c) - EstimateOf(c, x) + v
  {
    SumOut(c[x := v], x);
    assert c[x := v] - {x} == c - {x};
    if x in c {
      SumOut(c, x);
    } else {
      assert c - {x} == c;
    }
  }

  lemma DecrementOut(c: Counters, x: Key)
    requires x in c && c[x] > 0
    ensures DecrementAll(c) ==
        if c[x] == 1 then DecrementAll(c - {x}) else DecrementAll(c - {x})[x := c[x] - 1]
    ensures x !in DecrementAll(c - {x})
  {
  }

  lemma SizeOut(c: Counters, x: Key)
    requires x in c
    ensures |c| == |c - {x}| + 1
  {
    assert c.Keys == (c - {x}).Keys + {x};
  }

  lemma {:induction false} SumDecrement(c: Counters)
    requires forall x :: x in c ==> c[x] > 0
    ensures Sum(DecrementAll(c)) == Sum(c) - |c|
    decreases |c|
  {
    if c == map[] {
      assert DecrementAll(c) == map[];
    } else {
      var x :| x in c;
      SizeOut(c, x);
      SumDecrement(c - {x});
      SumOut(c, x);
      DecrementOut(c, x);
      hide DecrementAll, Sum;
      SumUpdate(DecrementAll(c - {x}), x, c[x] - 1);
    }
  }

  lemma DecrementShrinks(c: Counters)
    requires forall x :: x in c ==> c[x] > 0
    ensures |DecrementAll(c)| <= |c|
    ensures forall x :: x in DecrementAll(c) ==> DecrementAll(c)[x] > 0
  {
    SubsetSize(DecrementAll(c).Keys, c.Keys);
  }

  ghost predicate Positive(c: Counters) {
    forall x :: x in c ==> c[x] > 0
  }

  // One arrival adds one to the counters, or takes `k - 1` from them.
  lemma StepAccounting(c: Counters, k: nat, key: Key)
    requires k >= 2 && |c| <= k - 1 && Positive(c)
    ensures Positive(Step(c, k, key)) && |Step(c, k, key)| <= k - 1
    ensures Sum(Step(c, k, key)) == if key in c || |c| + 1 < k then Sum(c) + 1 else Sum(c) - (k - 1)
  {
    hide DecrementAll, Sum;
    if key in c || |c| + 1 < k {
      SumUpdate(c, key, EstimateOf(c, key) + 1);
      if key in c {
        assert c[key := c[key] + 1].Keys == c.Keys;
      } else {
        assert c[key := 1].Keys == c.Keys + {key};
      }
    } else {
      SumDecrement(c);
      DecrementShrinks(c);
    }
  }

  /**
   After any stream: every arrival is counted or was cancelled in one of the decrement-all
   phases, each of which cancels `k`; and there are at most `k - 1` counters, all positive.
   */
  lemma {:induction false} Accounting(stream: seq<Key>, k: nat)
    requires k >= 2
    ensures |stream| == Sum(Run(stream, k)) + k * Phases(stream, k)
    ensures |Run(stream, k)| <= k - 1 && Positive(Run(stream, k))
  {
    hide Step, Sum;
    if stream == [] {
      EmptySum();
    } else {
      var n := |stream| - 1;
      var before, key := stream[..n], stream[n];
      Accounting(before, k);
      assert stream == before + [key];
      RunSnoc(before, k, key);
      StepAccounting(Run(before, k), k, key);
      Distribute(k, Phases(before, k));
    }
  }

  lemma EmptySum()
    ensures Sum(map[]) == 0
  {
  }

  lemma Distribute(k: nat, d: nat)
    ensures k * (d + 1) == k * d + k
  {
  }

  /** The estimate is at most the true frequency and misses at most one per phase. */
  lemma {:induction false} EstimateBounds(stream: seq<Key>, k: nat, x: Key)
    requires k >= 2
    ensures multiset(stream)[x] - Phases(stream, k) <= EstimateOf(Run(stream, k), x) <= multiset(stream)[x]
  {
    if stream != [] {
      var n := |stream| - 1;
      var before, key := stream[..n], stream[n];
      EstimateBounds(before, k, x);
      Accounting(before, k);
      assert stream == before + [key];
      RunSnoc(before, k, key);
      assert multiset(stream)[x] == multiset(before)[x] + if x == key then 1 else 0;
    }
  }

  /** The error is at most length / k, and a key above that frequency has a counter. */
  lemma HeavyHitterGuarantee(stream: seq<Key>, k: nat, x: Key)
    requires k >= 2
    ensures k * (multiset(stream)[x] - EstimateOf(Run(stream, k), x)) <= |stream|
    ensures k * multiset(stream)[x] > |stream| ==> x in Run(stream, k)
  {
    hide Run, Phases, Sum;
    EstimateBounds(stream, k, x);
    Accounting(stream, k);
    MulMonotone(k, multiset(stream)[x] - EstimateOf(Run(stream, k), x), Phases(stream, k));
  }

  lemma MulMonotone(k: nat, a: int, b: int)
    requires a <= b
    ensures k * a <= k * b
  {
  }
}
