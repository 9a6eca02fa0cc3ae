/** Strings in lexicographic order, as `sort.Strings` leaves them. */
module Sorting {
  import opened Sets

  predicate AtMost(a: string, b: string) {
    a == "" || (b != "" && (a[0] < b[0] || (a[0] == b[0] && AtMost(a[1..], b[1..]))))
  }

  lemma {:induction false} Total(a: string, b: string)
    ensures AtMost(a, b) || AtMost(b, a)
  {
    if a != "" && b != "" && a[0] == b[0] {
      Total(a[1..], b[1..]);
    }
  }

  lemma {:induction false} Antisymmetric(a: string, b: string)
    requires AtMost(a, b) && AtMost(b, a)
    ensures a == b
  {
    if a != "" {
      Antisymmetric(a[1..], b[1..]);
      assert a == [a[0]] + a[1..] && b == [b[0]] + b[1..];
    }
  }

  lemma {:induction false} Transitive(a: string, b: string, c: string)
    requires AtMost(a, b) && AtMost(b, c)
    ensures AtMost(a, c)
  {
    if a != "" && a[0] == b[0] == c[0] {
      Transitive(a[1..], b[1..], c[1..]);
    }
  }

  ghost predicate Ascending(s: seq<string>) {
    forall i, j :: 0 <= i < j < |s| ==> AtMost(s[i], s[j]) && s[i] != s[j]
  }

  function Insert(x: string, s: seq<string>): seq<string> {
    if s == [] then [x]
    else if AtMost(x, s[0]) then [x] + s
    else [s[0]] + Insert(x, s[1..])
  }

  function Sort(s: seq<string>): seq<string> {
    if s == [] then [] else Insert(s[0], Sort(s[1..]))
  }

  lemma {:induction false} InsertAscending(x: string, s: seq<string>)
    requires Ascending(s) && x !in s
    ensures Ascending(Insert(x, s)) && Elements(Insert(x, s)) == Elements(s) + {x}
  {
    hide AtMost;
    if s == [] {
    } else if AtMost(x, s[0]) {
      forall j | 0 <= j < |s|
        ensures AtMost(x, s[j])
      {
        if j > 0 {
          Transitive(x, s[0], s[j]);
        }
      }
    } else {
      InsertAscending(x, s[1..]);
      Total(x, s[0]);
      assert s == [s[0]] + s[1..];
      Prefixed(s[0], Insert(x, s[1..]), s, x);
    }
  }

  lemma Prefixed(y: string, rest: seq<string>, s: seq<string>, x: string)
    requires Ascending(s) && s != [] && s[0] == y && AtMost(y, x) && x != y
    requires Ascending(rest) && Elements(rest) == Elements(s[1..]) + {x}
    ensures Ascending([y] + rest) && Elements([y] + rest) == Elements(s) + {x}
  {
    hide AtMost;
    assert s == [y] + s[1..];
    forall j | 0 <= j < |rest|
      ensures AtMost(y, rest[j]) && y != rest[j]
    {
      assert rest[j] in Elements(rest);
      if rest[j] != x {
        assert rest[j] in s[1..];
      }
    }
  }

  lemma {:induction false} SortAscending(s: seq<string>)
    requires NoDup(s)
    ensures Ascending(Sort(s)) && Elements(Sort(s)) == Elements(s)
  {
    if s == [] {
    } else {
      SortAscending(s[1..]);
      assert s == [s[0]] + s[1..];
      assert s[0] !in Sort(s[1..]) by {
        assert forall x :: x in Sort(s[1..]) <==> x in Elements(Sort(s[1..]));
      }
      InsertAscending(s[0], Sort(s[1..]));
    }
  }

  lemma NoElements(s: seq<string>)
    ensures Elements(s) == {} <==> s == []
  {
    assert s != [] ==> s[0] in Elements(s);
  }

  // A set has only one ascending listing.
  lemma {:induction false} AscendingUnique(s: seq<string>, t: seq<string>)
    requires Ascending(s) && Ascending(t) && Elements(s) == Elements(t)
    ensures s == t
  {
    NoElements(s);
    NoElements(t);
    if s == [] {
    } else {
      assert t[0] in Elements(t) && s[0] in Elements(s);
      FirstIsLeast(s, t[0]);
      FirstIsLeast(t, s[0]);
      Antisymmetric(s[0], t[0]);
      Rest(s);
      Rest(t);
      AscendingUnique(s[1..], t[1..]);
      assert s == [s[0]] + s[1..] && t == [t[0]] + t[1..];
    }
  }

  lemma FirstIsLeast(s: seq<string>, x: string)
    requires Ascending(s) && s != [] && x in Elements(s)
    ensures AtMost(s[0], x)
  {
    Total(s[0], s[0]);
    var i :| 0 <= i < |s| && s[i] == x;
  }

  lemma Rest(s: seq<string>)
    requires Ascending(s) && s != []
    ensures Ascending(s[1..]) && Elements(s[1..]) == Elements(s) - {s[0]}
  {
    assert s == [s[0]] + s[1..];
    forall x | x in Elements(s[1..])
      ensures x != s[0]
    {
      var i :| 0 <= i < |s[1..]| && s[1..][i] == x;
      assert s[i + 1] == x;
    }
  }

  // The members of a set in ascending order.
  ghost function Listing(ns: set<string>): (s: seq<string>)
    ensures Ascending(s) && Elements(s) == ns
  {
    ListingExists(ns);
    var s :| Ascending(s) && Elements(s) == ns;
    s
  }

  lemma {:induction false} ListingExists(ns: set<string>)
    ensures exists s :: Ascending(s) && Elements(s) == ns
  {
    if ns == {} {
      NoElements([]);
      assert Ascending([]);
    } else {
      var x :| x in ns;
      ListingExists(ns - {x});
      var s :| Ascending(s) && Elements(s) == ns - {x};
      assert x !in s by {
        assert x !in Elements(s);
      }
      InsertAscending(x, s);
      assert Elements(Insert(x, s)) == ns;
    }
  }

  // Collects a set in iteration order and sorts it.
  method SortedMembers(ns: set<string>) returns (r: seq<string>)
    ensures r == Listing(ns)
  {
    var s: seq<string> := [];
    var rest := ns;
    while rest != {}
      invariant rest <= ns && Elements(s) == ns - rest
      invariant NoDup(s)
      decreases rest
    {
      var x :| x in rest;
      assert forall y :: y in s <==> y in Elements(s);
      assert Elements(s + [x]) == Elements(s) + {x};
      s, rest := s + [x], rest - {x};
    }
    r := Sort(s);
    SortAscending(s);
    AscendingUnique(r, Listing(ns));
  }
}
