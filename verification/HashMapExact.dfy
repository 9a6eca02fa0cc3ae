/** The exact counter: one map entry per key seen. */
module HashMapExact {
  import opened Keys

  class ExactCounter {
    var counts: map<Key, nat>
    ghost var stream: seq<Key>

    ghost predicate Valid()
      reads this
    {
      && (forall k :: k in counts <==> k in stream)
      && forall k :: k in counts ==> counts[k] == multiset(stream)[k]
    }

    constructor ()
      ensures Valid() && stream == []
    {
      counts, stream := map[], [];
    }

    method Record(key: Key)
      requires Valid()
      modifies this
      ensures Valid() && stream == old(stream) + [key]
    {
      assert key in counts <==> key in multiset(stream);
      counts := counts[key := if key in counts then counts[key] + 1 else 1];
      stream := stream + [key];
    }

    method Estimate(key: Key) returns (e: nat)
      requires Valid()
      ensures e == multiset(stream)[key]
    {
      assert key in stream <==> key in multiset(stream);
      e := if key in counts then counts[key] else 0;
    }

    method Reset()
      modifies this
      ensures Valid() && stream == []
    {
      counts, stream := map[], [];
    }
  }
}
