/** The three frequency estimators behind one interface. */
module Estimators {
  import opened Words
  import opened Keys
  import opened CountMin
  import opened MisraGries
  import opened HashMapExact

  datatype Algo =
    | Cms(width: nat, depth: nat)
    | Mg(k: nat)
    | HashMap

  ghost predicate WellConfigured(algo: Algo) {
    match algo
    case Cms(width, _) => width >= 1
    case Mg(k) => k >= 2
    case HashMap => true
  }

  // What each estimator answers after a stream of keys.
  ghost function Answer(algo: Algo, stream: seq<Key>, key: Key): nat
    requires WellConfigured(algo)
  {
    match algo
    case Cms(width, depth) => LeastCell(stream, width, depth, key)
    case Mg(k) => EstimateOf(Run(stream, k), key)
    case HashMap => multiset(stream)[key]
  }

  datatype Estimator =
    | Sketch(sketch: CountMinSketch)
    | Hitters(hitters: HeavyHitters)
    | Counter(counter: ExactCounter)
  {
    ghost function Repr(): set<object>
      reads match this case Sketch(s) => {s} case Hitters(h) => {h} case Counter(c) => {c}
    {
      match this
      case Sketch(s) => {s, s.table}
      case Hitters(h) => {h}
      case Counter(c) => {c}
    }

    ghost predicate Valid(algo: Algo)
      reads Repr()
    {
      match (this, algo)
      case (Sketch(s), Cms(width, depth)) => s.Valid() && s.width == width && s.depth == depth
      case (Hitters(h), Mg(k)) => h.Valid() && h.k == k
      case (Counter(c), HashMap) => c.Valid()
      case _ => false
    }

    ghost function Stream(): seq<Key>
      reads Repr()
    {
      match this
      case Sketch(s) => s.stream
      case Hitters(h) => h.stream
      case Counter(c) => c.stream
    }

    method RecordU32(ghost algo: Algo, x: uint32)
      requires WellConfigured(algo) && Valid(algo)
      modifies Repr()
      ensures Valid(algo) && Stream() == old(Stream()) + [U32Key(x)]
    {
      match this
      case Sketch(s) => s.Record(U32Key(x));
      case Hitters(h) => h.Record(U32Key(x));
      case Counter(c) => c.Record(U32Key(x));
    }

    method EstimateU32(ghost algo: Algo, x: uint32) returns (e: nat)
      requires WellConfigured(algo) && Valid(algo)
      ensures e == Answer(algo, Stream(), U32Key(x))
    {
      match this
      case Sketch(s) => e := s.Estimate(U32Key(x));
      case Hitters(h) => e := h.Estimate(U32Key(x));
      case Counter(c) => e := c.Estimate(U32Key(x));
    }

    method Reset(ghost algo: Algo)
      requires Valid(algo)
      modifies Repr()
      ensures Valid(algo) && Stream() == []
    {
      match this
      case Sketch(s) => s.Reset();
      case Hitters(h) => h.Reset();
      case Counter(c) => c.Reset();
    }
  }

  // Misra-Gries rejects fewer than two slots.
  method MakeEstimator(algo: Algo) returns (r: Option<Estimator>)
    ensures r.None? <==> algo.Mg? && algo.k < 2
    ensures r.Some? ==> r.value.Valid(algo) && r.value.Stream() == [] && fresh(r.value.Repr())
  {
    match algo
    case Cms(width, depth) =>
      var s := new CountMinSketch(width, depth);
      r := Some(Sketch(s));
    case Mg(k) =>
      if k < 2 { return None; }
      var h := new HeavyHitters(k);
      r := Some(Hitters(h));
    case HashMap =>
      var c := new ExactCounter();
      r := Some(Counter(c));
  }

  /**
   On every stream and key: Misra-Gries never answers more than the exact counter, and the
   sketch never answers less.
   */
  lemma Bracketed(stream: seq<Key>, key: Key, k: nat, width: nat, depth: nat)
    requires k >= 2 && width >= 1 && |stream| <= MAX_U64
    ensures Answer(Mg(k), stream, key) <= Answer(HashMap, stream, key) <= Answer(Cms(width, depth), stream, key)
  {
    MisraGries.EstimateBounds(stream, k, key);
    CountMin.EstimateBounds(stream, width, depth, key);
  }
}
