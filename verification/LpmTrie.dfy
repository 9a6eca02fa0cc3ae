/** The longest-prefix-match trie: heap nodes with two children, and its two counters. */
module LpmTrie {
  import opened Words
  import B = Bits

  // A prefix is its significant bits, most significant first.
  type Prefix = seq<bool>

  // `get_bit`: position 0 is the most significant bit.
  function GetBit(x: uint32, pos: nat): bool
    requires pos < 32
  {
    B.Shr(x, 31 - pos) % 2 == 1
  }

  function FirstBits(x: uint32, len: nat): (p: Prefix)
    requires len <= 32
    ensures |p| == len
  {
    seq(len, i requires 0 <= i < len => GetBit(x, i))
  }

  type Table = map<Prefix, int>

  // The label of the longest prefix of the first `n` bits of `ip`, or -1.
  ghost function BestLabel(t: Table, ip: uint32, n: nat): int
    requires n <= 32
  {
    if FirstBits(ip, n) in t then t[FirstBits(ip, n)]
    else if n == 0 then -1
    else BestLabel(t, ip, n - 1)
  }

  class Node {
    var zero: Node?
    var one: Node?
    var tag: int
    var hasPrefix: bool
    // The bits on the way from the root to this node.
    ghost const path: Prefix

    constructor (ghost path: Prefix)
      ensures zero == null && one == null && tag == -1 && !hasPrefix && this.path == path
    {
      zero, one, tag, hasPrefix := null, null, -1, false;
      this.path := path;
    }

    function Child(b: bool): Node?
      reads this
    {
      if b then one else zero
    }

    method SetChild(b: bool, n: Node)
      modifies this`zero, this`one
      ensures Child(b) == n && Child(!b) == old(Child(!b))
    {
      if b { one := n; } else { zero := n; }
    }
  }

  // The nodes of a trie by the path that leads to them.
  type Index = map<Prefix, Node>

  ghost function NodeAt(nodes: Index, p: Prefix): Node? {
    if p in nodes then nodes[p] else null
  }

  // The index lists the nodes in `repr`, each under its own path.
  ghost predicate Indexed(nodes: Index, repr: set<Node>) {
    && (forall p :: p in nodes ==> nodes[p] in repr && nodes[p].path == p && |p| <= 32)
    && (forall n :: n in repr ==> n.path in nodes && nodes[n.path] == n)
  }

  // The children of the node at `p` are the nodes one bit further on.
  ghost predicate Linked(nodes: Index, p: Prefix)
    requires p in nodes
    reads NodeAt(nodes, p)`zero, NodeAt(nodes, p)`one
  {
    nodes[p].zero == NodeAt(nodes, p + [false]) && nodes[p].one == NodeAt(nodes, p + [true])
  }

  ghost predicate HasParent(nodes: Index, p: Prefix) {
    p == [] || p[..|p| - 1] in nodes
  }

  ghost predicate Shape(nodes: Index, repr: set<Node>)
    requires Indexed(nodes, repr)
    reads repr`zero, repr`one
  {
    && [] in nodes
    && (forall p {:trigger HasParent(nodes, p)} :: p in nodes ==> HasParent(nodes, p))
    && (forall p {:trigger Linked(nodes, p)} :: p in nodes ==> Linked(nodes, p))
  }

  ghost function TableOf(nodes: Index, repr: set<Node>): Table
    requires Indexed(nodes, repr)
    reads repr`hasPrefix, repr`tag
  {
    map p | p in nodes && nodes[p].hasPrefix :: nodes[p].tag
  }

  // A node without a child for a bit has no index entry there nor beyond.
  lemma LinkedAt(nodes: Index, repr: set<Node>, node: Node, b: bool)
    requires Indexed(nodes, repr) && Shape(nodes, repr) && node in repr && node.Child(b) == null
    ensures node.path in nodes && nodes[node.path] == node && Linked(nodes, node.path)
    ensures node.path + [b] !in nodes && node.Child(!b) == NodeAt(nodes, node.path + [!b])
    ensures node.path + [b] + [false] !in nodes && node.path + [b] + [true] !in nodes
    ensures forall q :: q in nodes && q != node.path ==> nodes[q] != node
  {
    assert Linked(nodes, node.path);
    NoGrandchild(nodes, repr, node.path + [b]);
  }

  lemma EveryLink(nodes: Index, repr: set<Node>)
    requires Indexed(nodes, repr) && Shape(nodes, repr)
    ensures forall q {:trigger Linked(nodes, q)} :: q in nodes ==> Linked(nodes, q)
    ensures forall q {:trigger HasParent(nodes, q)} :: q in nodes ==> HasParent(nodes, q)
    ensures [] in nodes
  {
  }

  // Hanging a new leaf under the node at `p` keeps the index and the shape.
  lemma GrownShape(nodes: Index, repr: set<Node>, p: Prefix, b: bool, n: Node)
    requires Indexed(nodes, repr) && p in nodes && |p| < 32 && p + [b] !in nodes && [] in nodes
    requires p + [b] + [false] !in nodes && p + [b] + [true] !in nodes
    requires n !in repr && n.path == p + [b] && n.zero == null && n.one == null
    requires forall q {:trigger HasParent(nodes, q)} :: q in nodes ==> HasParent(nodes, q)
    requires forall q {:trigger Linked(nodes, q)} :: q in nodes && q != p ==> Linked(nodes, q)
    requires nodes[p].Child(b) == n && nodes[p].Child(!b) == NodeAt(nodes, p + [!b])
    ensures Indexed(nodes[p + [b] := n], repr + {n})
    ensures Shape(nodes[p + [b] := n], repr + {n})
  {
    var nodes' := nodes[p + [b] := n];
    assert (p + [b])[..|p|] == p;
    forall q | q in nodes'
      ensures Linked(nodes', q) && HasParent(nodes', q)
    {
      SnocInjective(q, false, p, b);
      SnocInjective(q, true, p, b);
      SnocInjective(p, b, p, !b);
      if q != p + [b] {
        assert HasParent(nodes, q);
        assert q != p ==> Linked(nodes, q);
      } else {
        SnocInjective(q, false, p, b);
      }
    }
  }

  // An unlabelled leaf does not change the table.
  lemma GrownTable(nodes: Index, repr: set<Node>, n: Node)
    requires Indexed(nodes, repr) && n.path !in nodes && !n.hasPrefix
    requires Indexed(nodes[n.path := n], repr + {n})
    ensures TableOf(nodes[n.path := n], repr + {n}) == TableOf(nodes, repr)
  {
  }

  class Trie {
    const root: Node
    var count: nat
    var nodeCount: nat
    ghost var nodes: Index
    ghost var repr: set<Node>

    ghost predicate Valid()
      reads this, repr
    {
      && Indexed(nodes, repr) && Shape(nodes, repr) && nodes[[]] == root
      && nodeCount == |nodes| && count == |TableOf(nodes, repr)|
    }

    // The finite map the trie represents.
    ghost function Stored(): Table
      requires Valid()
      reads this, repr
    {
      TableOf(nodes, repr)
    }

    constructor ()
      ensures Valid() && fresh(repr) && Stored() == map[] && nodeCount == 1
    {
      root := new Node([]);
      count, nodeCount := 0, 1;
      new;
      nodes, repr := map[[] := root], {root};
      assert Linked(nodes, []) && HasParent(nodes, []);
      assert TableOf(nodes, repr) == map[];
    }

    // A new leaf below `node`, not yet in the index.
    method Graft(node: Node, b: bool) returns (n: Node)
      requires Indexed(nodes, repr) && Shape(nodes, repr)
      requires node in repr && |node.path| < 32 && node.Child(b) == null
      modifies node`zero, node`one
      ensures fresh(n) && n.path == node.path + [b] && n.path !in nodes && node.Child(b) == n
      ensures Indexed(nodes[n.path := n], repr + {n}) && Shape(nodes[n.path := n], repr + {n})
      ensures TableOf(nodes[n.path := n], repr + {n}) == old(TableOf(nodes, repr))
    {
      hide Shape, TableOf, HasParent, Indexed;
      ghost var p := node.path;
      LinkedAt(nodes, repr, node, b);
      EveryLink(nodes, repr);
      n := new Node(p + [b]);
      node.SetChild(b, n);
      forall q | q in nodes && q != p
        ensures Linked(nodes, q)
      {
        assert nodes[q] != node && old(Linked(nodes, q));
      }
      GrownShape(nodes, repr, p, b, n);
      GrownTable(nodes, repr, n);
    }

    // Creates the missing child of `node` for bit `b`.
    method AddChild(node: Node, b: bool)
      requires Valid() && node in repr && |node.path| < 32 && node.Child(b) == null
      modifies this`nodes, this`nodeCount, this`repr, node`zero, node`one
      ensures Valid() && Stored() == old(Stored()) && node.Child(b) != null
      ensures old(repr) <= repr && fresh(repr - old(repr))
      ensures nodeCount == old(nodeCount) + 1
    {
      hide Shape, TableOf, Indexed;
      RootIsFirst(nodes, repr);
      var n := Graft(node, b);
      nodes, repr := nodes[n.path := n], repr + {n};
      nodeCount := nodeCount + 1;
    }

    // Stores a label at a node.
    method Mark(node: Node, tag: int)
      requires Valid() && node in repr
      modifies this`count, node`tag, node`hasPrefix
      ensures Valid() && Stored() == old(Stored())[node.path := tag]
    {
      hide Shape, Linked, TableOf, Indexed;
      ghost var before := TableOf(nodes, repr);
      InTable(nodes, repr, node);
      TableSizes(before, node.path, tag);
      if !node.hasPrefix {
        count := count + 1;
      }
      SetTag(node, tag, before);
    }

    method SetTag(node: Node, tag: int, ghost before: Table)
      requires Indexed(nodes, repr) && Shape(nodes, repr) && node in repr && before == TableOf(nodes, repr)
      modifies node`tag, node`hasPrefix
      ensures Shape(nodes, repr) && TableOf(nodes, repr) == before[node.path := tag]
    {
      hide Shape, Linked, TableOf, Indexed;
      TableEntries(nodes, repr, node);
      node.hasPrefix := true;
      node.tag := tag;
      MarkedTable(nodes, repr, before, node);
    }

    // Erases the label of a node that has one.
    method Unmark(node: Node)
      requires Valid() && node in repr && node.hasPrefix
      modifies this`count, node`tag, node`hasPrefix
      ensures Valid() && Stored() == old(Stored()) - {node.path}
    {
      hide Shape, Linked, TableOf, Indexed;
      ghost var before := TableOf(nodes, repr);
      InTable(nodes, repr, node);
      TableSizes(before, node.path, -1);
      ClearTag(node, before);
      count := count - 1;
    }

    method ClearTag(node: Node, ghost before: Table)
      requires Indexed(nodes, repr) && Shape(nodes, repr) && node in repr && before == TableOf(nodes, repr)
      modifies node`tag, node`hasPrefix
      ensures Shape(nodes, repr) && TableOf(nodes, repr) == before - {node.path}
    {
      hide Shape, Linked, TableOf, Indexed;
      TableEntries(nodes, repr, node);
      node.hasPrefix := false;
      node.tag := -1;
      UnmarkedTable(nodes, repr, before, node);
    }

    // The node one bit further on, created if it is missing.
    method Descend(node: Node, b: bool) returns (child: Node)
      requires Valid() && node in repr && |node.path| < 32
      modifies this`nodes, this`nodeCount, this`repr, node`zero, node`one
      ensures Valid() && Stored() == old(Stored())
      ensures child in repr && child.path == node.path + [b]
      ensures old(repr) <= repr && fresh(repr - old(repr))
      ensures old(nodeCount) <= nodeCount <= old(nodeCount) + 1
    {
      hide Shape, TableOf, Indexed;
      if node.Child(b) == null {
        AddChild(node, b);
      }
      ChildIsNext(nodes, repr, node, b);
      child := node.Child(b);
    }

    method Insert(prefix: uint32, len: nat, tag: int)
      requires Valid() && len <= 32
      modifies this, repr
      ensures Valid() && fresh(repr - old(repr))
      ensures Stored() == old(Stored())[FirstBits(prefix, len) := tag]
      ensures nodeCount <= old(nodeCount) + len
    {
      hide Shape, TableOf;
      RootIsFirst(nodes, repr);
      var node := root;
      ghost var path := FirstBits(prefix, len);
      assert path[..0] == [];
      for i := 0 to len
        invariant Valid() && Stored() == old(Stored())
        invariant node in repr && node.path == path[..i]
        invariant old(repr) <= repr && fresh(repr - old(repr))
        invariant nodeCount <= old(nodeCount) + i
      {
        hide Shape, TableOf;
        assert path[..i + 1] == path[..i] + [GetBit(prefix, i)];
        node := Descend(node, GetBit(prefix, i));
      }
      assert path[..len] == path;
      Mark(node, tag);
    }

    method Remove(prefix: uint32, len: nat) returns (removed: bool)
      requires Valid() && len <= 32
      modifies this`count, repr`hasPrefix, repr`tag
      ensures Valid() && repr == old(repr)
      ensures removed <==> FirstBits(prefix, len) in old(Stored())
      ensures Stored() == old(Stored()) - {FirstBits(prefix, len)}
    {
      hide Shape, TableOf;
      RootIsFirst(nodes, repr);
      var node := root;
      ghost var path := FirstBits(prefix, len);
      assert path[..0] == [];
      for i := 0 to len
        modifies {}
        invariant node in repr && node.path == path[..i]
      {
        hide Shape, TableOf;
        assert path[..i + 1] == path[..i] + [GetBit(prefix, i)];
        ChildIsNext(nodes, repr, node, GetBit(prefix, i));
        var child := node.Child(GetBit(prefix, i));
        if child == null {
          NoLonger(nodes, repr, path, i + 1);
          OnlyIndexed(nodes, repr);
          return false;
        }
        node := child;
      }
      assert path[..len] == path;
      InTable(nodes, repr, node);
      if !node.hasPrefix { return false; }
      Unmark(node);
      return true;
    }

    method Lookup(ip: uint32) returns (best: int)
      requires Valid()
      ensures best == BestLabel(Stored(), ip, 32)
    {
      hide Shape;
      RootIsFirst(nodes, repr);
      var node := root;
      best := -1;
      assert FirstBits(ip, 0) == [];
      if node.hasPrefix {
        best := node.tag;
      }
      for i := 0 to 32
        invariant node in repr && node.path == FirstBits(ip, i)
        invariant best == BestLabel(Stored(), ip, i)
      {
        hide Shape;
        assert FirstBits(ip, i + 1) == FirstBits(ip, i) + [GetBit(ip, i)];
        ChildIsNext(nodes, repr, node, GetBit(ip, i));
        var child := node.Child(GetBit(ip, i));
        if child == null {
          NothingBeyond(nodes, repr, ip, i + 1);
          return;
        }
        node := child;
        if node.hasPrefix {
          best := node.tag;
        }
      }
    }

    method Size() returns (n: nat)
      requires Valid()
      ensures n == |Stored()|
    {
      n := count;
    }
  }

  lemma TableEntries(nodes: Index, repr: set<Node>, node: Node)
    requires Indexed(nodes, repr) && node in repr
    ensures TableOf(nodes, repr).Keys <= nodes.Keys
    ensures node.path in TableOf(nodes, repr) <==> node.hasPrefix
    ensures forall p :: p in nodes && p != node.path ==> nodes[p] != node && nodes[p] in repr
    ensures forall p :: p in nodes && p != node.path ==> EntryIs(nodes, TableOf(nodes, repr), p)
  {
  }

  ghost predicate EntryIs(nodes: Index, t: Table, p: Prefix)
    requires p in nodes
    reads nodes[p]
  {
    && (p in t <==> nodes[p].hasPrefix)
    && (p in t ==> t[p] == nodes[p].tag)
  }

  // When the label of one node has changed, so has its entry, and nothing else.
  lemma MarkedTable(nodes: Index, repr: set<Node>, before: Table, node: Node)
    requires Indexed(nodes, repr) && node in repr && before.Keys <= nodes.Keys && node.hasPrefix
    requires forall p :: p in nodes && p != node.path ==> EntryIs(nodes, before, p)
    ensures TableOf(nodes, repr) == before[node.path := node.tag]
  {
    var t, t' := TableOf(nodes, repr), before[node.path := node.tag];
    forall p: Prefix
      ensures p in t <==> p in t'
      ensures p in t && p in t' ==> t[p] == t'[p]
    {
      if p in nodes && p != node.path {
        assert EntryIs(nodes, before, p);
      }
    }
  }

  lemma UnmarkedTable(nodes: Index, repr: set<Node>, before: Table, node: Node)
    requires Indexed(nodes, repr) && node in repr && before.Keys <= nodes.Keys && !node.hasPrefix
    requires forall p :: p in nodes && p != node.path ==> EntryIs(nodes, before, p)
    ensures TableOf(nodes, repr) == before - {node.path}
  {
    var t, t' := TableOf(nodes, repr), before - {node.path};
    forall p: Prefix
      ensures p in t <==> p in t'
      ensures p in t && p in t' ==> t[p] == t'[p]
    {
      if p in nodes && p != node.path {
        assert EntryIs(nodes, before, p);
      }
    }
  }

  lemma TableSizes(t: Table, p: Prefix, tag: int)
    ensures |t[p := tag]| == |t| + if p in t then 0 else 1
    ensures |t - {p}| == |t| - if p in t then 1 else 0
  {
    assert t[p := tag].Keys == t.Keys + {p};
    assert (t - {p}).Keys == t.Keys - {p};
  }

  lemma InTable(nodes: Index, repr: set<Node>, node: Node)
    requires Indexed(nodes, repr) && node in repr
    ensures node.path in TableOf(nodes, repr) <==> node.hasPrefix
  {
  }

  lemma OnlyIndexed(nodes: Index, repr: set<Node>)
    requires Indexed(nodes, repr)
    ensures TableOf(nodes, repr).Keys <= nodes.Keys
  {
  }

  lemma RootIsFirst(nodes: Index, repr: set<Node>)
    requires Indexed(nodes, repr) && Shape(nodes, repr)
    ensures [] in nodes && nodes[[]] in repr && nodes[[]].path == []
  {
  }

  lemma ChildIsNext(nodes: Index, repr: set<Node>, node: Node, b: bool)
    requires Indexed(nodes, repr) && Shape(nodes, repr) && node in repr
    ensures node.Child(b) == NodeAt(nodes, node.path + [b])
    ensures node.Child(b) != null ==> node.Child(b) in repr && node.Child(b).path == node.path + [b]
  {
    assert Linked(nodes, node.path);
    if node.Child(b) != null {
      assert Linked(nodes, node.path + [b]);
    }
  }

  lemma SnocInjective(p: Prefix, b: bool, q: Prefix, c: bool)
    ensures p + [b] == q + [c] ==> p == q && b == c
  {
    if p + [b] == q + [c] {
      assert p == (p + [b])[..|p|] && q == (q + [c])[..|q|];
      assert (p + [b])[|p|] == b && (q + [c])[|q|] == c;
    }
  }

  lemma NoGrandchild(nodes: Index, repr: set<Node>, p: Prefix)
    requires Indexed(nodes, repr) && Shape(nodes, repr) && p !in nodes
    ensures p + [false] !in nodes && p + [true] !in nodes
  {
    assert (p + [false])[..|p|] == p && (p + [true])[..|p|] == p;
    assert p + [false] in nodes ==> HasParent(nodes, p + [false]);
    assert p + [true] in nodes ==> HasParent(nodes, p + [true]);
  }

  // Where a path leaves the trie, its extensions are not in it either.
  lemma {:induction false} NoLonger(nodes: Index, repr: set<Node>, path: Prefix, i: nat)
    requires Indexed(nodes, repr) && Shape(nodes, repr)
    requires 0 < i <= |path| && path[..i] !in nodes
    ensures path !in nodes
  {
    if i == |path| {
      assert path[..i] == path;
    } else {
      var q := path[..|path| - 1];
      assert q[..i] == path[..i];
      NoLonger(nodes, repr, q, i);
      assert path in nodes ==> HasParent(nodes, path);
    }
  }

  lemma {:induction false} NothingBeyond(nodes: Index, repr: set<Node>, ip: uint32, i: nat)
    requires Indexed(nodes, repr) && Shape(nodes, repr)
    requires 0 < i <= 32 && FirstBits(ip, i) !in nodes
    ensures BestLabel(TableOf(nodes, repr), ip, 32) == BestLabel(TableOf(nodes, repr), ip, i - 1)
  {
    hide Shape;
    for n := i to 33
      invariant BestLabel(TableOf(nodes, repr), ip, n - 1) == BestLabel(TableOf(nodes, repr), ip, i - 1)
    {
      hide Shape;
      assert FirstBits(ip, n)[..i] == FirstBits(ip, i);
      NoLonger(nodes, repr, FirstBits(ip, n), i);
    }
  }

  // ---- Longest match ----

  // `p` is a prefix of the address.
  ghost predicate Covers(p: Prefix, ip: uint32) {
    |p| <= 32 && p == FirstBits(ip, |p|)
  }

  // `p` is a stored prefix of the address with at most `n` bits, and no other such is longer.
  ghost predicate Longest(t: Table, ip: uint32, n: nat, p: Prefix) {
    && p in t && |p| <= n && Covers(p, ip)
    && forall q :: q in t && |q| <= n && Covers(q, ip) ==> |q| <= |p|
  }

  ghost predicate Matched(t: Table, ip: uint32, n: nat) {
    exists p :: Longest(t, ip, n, p)
  }

  /**
   The answer is the label of the longest stored prefix of the address, or -1 without one. So it is
   -1 exactly when no stored prefix covers the address or the longest that does has the label -1.
   */
  lemma {:induction false} LongestMatch(t: Table, ip: uint32, n: nat)
    requires n <= 32
    ensures if Matched(t, ip, n)
      then forall p :: Longest(t, ip, n, p) ==> BestLabel(t, ip, n) == t[p]
      else BestLabel(t, ip, n) == -1 && forall p :: p in t && |p| <= n ==> !Covers(p, ip)
    ensures BestLabel(t, ip, n) == -1 <==> forall p :: Longest(t, ip, n, p) ==> t[p] == -1
  {
    if FirstBits(ip, n) in t {
      assert Longest(t, ip, n, FirstBits(ip, n));
    } else if n > 0 {
      LongestMatch(t, ip, n - 1);
      assert forall p :: p in t && |p| <= n && Covers(p, ip) ==> |p| <= n - 1;
      if Matched(t, ip, n - 1) {
        var p :| Longest(t, ip, n - 1, p);
        assert Longest(t, ip, n, p);
      }
      forall p
        ensures Longest(t, ip, n, p) <==> Longest(t, ip, n - 1, p)
      {
      }
    }
  }

  /**
   Two addresses agree in their first `len` bits exactly when they fall into the same aligned block
   of 2^(32 - len) addresses.
   */
  lemma SameBlock(x: uint32, y: uint32, len: nat)
    requires len <= 32
    ensures FirstBits(x, len) == FirstBits(y, len) <==> x / B.Pow2(32 - len) == y / B.Pow2(32 - len)
  {
    SameShift(x, y, len);
    B.ShrIsDiv(x, 32 - len);
    B.ShrIsDiv(y, 32 - len);
  }

  lemma {:induction false} SameShift(x: uint32, y: uint32, len: nat)
    requires len <= 32
    ensures FirstBits(x, len) == FirstBits(y, len) <==> B.Shr(x, 32 - len) == B.Shr(y, 32 - len)
  {
    if len == 0 {
      B.Pow2Of32();
      B.ShrBound(x, 32);
      B.ShrBound(y, 32);
    } else {
      SameShift(x, y, len - 1);
      var sx, sy := FirstBits(x, len), FirstBits(y, len);
      assert sx == FirstBits(x, len - 1) + [GetBit(x, len - 1)];
      assert sy == FirstBits(y, len - 1) + [GetBit(y, len - 1)];
      SnocInjective(FirstBits(x, len - 1), GetBit(x, len - 1), FirstBits(y, len - 1), GetBit(y, len - 1));
      HalveBlock(x, 32 - len);
      HalveBlock(y, 32 - len);
    }
  }

  lemma HalveBlock(x: uint32, n: nat)
    ensures B.Shr(x, n + 1) == B.Shr(x, n) / 2
  {
    B.ShrShr(x, n, 1);
    assert B.Shr(B.Shr(x, n), 1) == B.Shr(B.Shr(x, n) / 2, 0);
  }

  // ---- Whole runs ----

  datatype Op =
    | Add(prefix: uint32, len: nat, tag: int)
    | Drop(prefix: uint32, len: nat)

  ghost predicate InRange(ops: seq<Op>) {
    forall i :: 0 <= i < |ops| ==> ops[i].len <= 32
  }

  ghost function TableAfter(ops: seq<Op>): Table
    requires InRange(ops)
  {
    if ops == [] then map[]
    else
      var t := TableAfter(ops[..|ops| - 1]);
      match ops[|ops| - 1]
      case Add(prefix, len, tag) => t[FirstBits(prefix, len) := tag]
      case Drop(prefix, len) => t - {FirstBits(prefix, len)}
  }

  ghost function Adds(ops: seq<Op>): nat {
    if ops == [] then 0 else Adds(ops[..|ops| - 1]) + if ops[|ops| - 1].Add? then 1 else 0
  }

  /** After any inserts and removals a fresh trie is the finite map they describe. */
  method Replay(ops: seq<Op>) returns (t: Trie)
    requires InRange(ops)
    ensures fresh(t) && t.Valid() && t.Stored() == TableAfter(ops)
    ensures t.nodeCount <= 1 + 32 * Adds(ops)
  {
    t := new Trie();
    for i := 0 to |ops|
      invariant fresh(t) && fresh(t.repr) && t.Valid()
      invariant t.Stored() == TableAfter(ops[..i])
      invariant t.nodeCount <= 1 + 32 * Adds(ops[..i])
    {
      assert ops[..i + 1][..i] == ops[..i];
      match ops[i]
      case Add(prefix, len, tag) => t.Insert(prefix, len, tag);
      case Drop(prefix, len) => var removed := t.Remove(prefix, len);
    }
    assert ops[..|ops|] == ops;
  }
}
