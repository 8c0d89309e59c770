// From the dominator tree to the layers of the image.
module Grouping {
  import opened Common
  import opened Dominators
  import opened SortedStrings
  import opened Layers

  type Nodes = map<Node, Closure>

  predicate NoDuplicates(ns: seq<Node>) {
    forall i, j :: 0 <= i < j < |ns| ==> ns[i] != ns[j]
  }

  /** The dominator tree as the graph library hands it over, with the children of a node in
      some order. */
  datatype DominatorTree = DominatorTree(idom: map<Node, Node>, children: map<Node, seq<Node>>) {
    /** `DominatedBy`: the nodes whose immediate dominator is `n`. */
    function DominatedBy(n: Node): seq<Node> {
      if n in children then children[n] else []
    }

    ghost predicate Valid(edges: Edges) {
      && IsTree(edges, idom)
      && (forall n: Node :: NoDuplicates(DominatedBy(n)))
      && (forall n: Node, m: Node :: m in DominatedBy(n) <==> m in idom && idom[m] == n)
    }
  }

  ghost predicate Covers(nodes: Nodes, dt: DominatorTree) {
    forall n :: n in dt.idom ==> n in nodes
  }

  ghost predicate Enumerates(ns: seq<Node>, s: set<Node>) {
    NoDuplicates(ns) && forall n :: n in ns <==> n in s
  }

  ghost function AnyOrder(s: set<Node>): (ns: seq<Node>)
    ensures Enumerates(ns, s)
  {
    if s == {} then [] else [Pick(s)] + AnyOrder(s - {Pick(s)})
  }

  /** There is such a tree for every graph: children in any order. */
  lemma HasTree(edges: Edges) returns (dt: DominatorTree)
    ensures dt.Valid(edges)
  {
    var idom := TreeExists(edges);
    var parents := set n | n in idom :: idom[n];
    dt := DominatorTree(idom, map p | p in parents :: AnyOrder(set n | n in idom && idom[n] == p));
    hide IsTree;
    forall n: Node, m: Node ensures m in dt.DominatedBy(n) <==> m in idom && idom[m] == n {
      if n in parents {
        assert Enumerates(dt.children[n], set k | k in idom && idom[k] == n);
      }
    }
  }

  lemma FewerEnumerated(a: seq<Node>, s: set<Node>)
    requires Enumerates(a, s) && a != []
    ensures Enumerates(a[..|a| - 1], s - {a[|a| - 1]}) && a[|a| - 1] in s
  {
    var n := |a| - 1;
    assert a[n] in a;
    forall m | m in s && m != a[n] ensures m in a[..n] {
      var k :| 0 <= k < |a| && a[k] == m;
      assert a[..n][k] == m;
    }
  }

  lemma {:induction false} SameMultiset(a: seq<Node>, s: set<Node>)
    requires Enumerates(a, s)
    ensures multiset(a) == multiset(s)
  {
    if a != [] {
      var n := |a| - 1;
      var fewer := s - {a[n]};
      FewerEnumerated(a, s);
      hide Enumerates;
      SameMultiset(a[..n], fewer);
      assert a == a[..n] + [a[n]] && s == fewer + {a[n]};
    } else {
      assert s == {};
    }
  }

  function Paths(nodes: Nodes, ns: seq<Node>): (ps: seq<string>)
    requires forall n :: n in ns ==> n in nodes
    ensures |ps| == |ns|
  {
    seq(|ns|, k requires 0 <= k < |ns| => nodes[ns[k]].path)
  }

  function SizeSum(nodes: Nodes, ns: seq<Node>): nat
    requires forall n :: n in ns ==> n in nodes
  {
    if ns == [] then 0 else SizeSum(nodes, ns[..|ns| - 1]) + nodes[ns[|ns| - 1]].size
  }

  lemma SingleNode(nodes: Nodes, r: Node)
    requires r in nodes
    ensures Paths(nodes, [r]) == [nodes[r].path] && SizeSum(nodes, [r]) == nodes[r].size
  {
    assert [r][..0] == [];
  }

  lemma SnocNode(nodes: Nodes, ns: seq<Node>, n: Node)
    requires n in nodes && forall m :: m in ns ==> m in nodes
    ensures Paths(nodes, ns + [n]) == Paths(nodes, ns) + [nodes[n].path]
    ensures SizeSum(nodes, ns + [n]) == SizeSum(nodes, ns) + nodes[n].size
  {
    assert (ns + [n])[..|ns|] == ns;
  }

  lemma {:induction false} AppendNodes(nodes: Nodes, a: seq<Node>, b: seq<Node>)
    requires forall n :: n in a + b ==> n in nodes
    ensures Paths(nodes, a + b) == Paths(nodes, a) + Paths(nodes, b)
    ensures SizeSum(nodes, a + b) == SizeSum(nodes, a) + SizeSum(nodes, b)
  {
    if b == [] {
      assert a + b == a;
    } else {
      var n := |b| - 1;
      AppendNodes(nodes, a, b[..n]);
      assert (a + b[..n]) + [b[n]] == a + b && b[..n] + [b[n]] == b;
      SnocNode(nodes, a + b[..n], b[n]);
      SnocNode(nodes, b[..n], b[n]);
    }
  }

  function Without(ns: seq<Node>, j: nat): (r: seq<Node>)
    requires j < |ns|
    ensures |r| == |ns| - 1
    ensures forall n :: n in r ==> n in ns
  {
    ns[..j] + ns[j + 1..]
  }

  lemma RemoveNode(nodes: Nodes, ns: seq<Node>, j: nat)
    requires j < |ns| && forall n :: n in ns ==> n in nodes
    ensures multiset(ns) == multiset(Without(ns, j)) + multiset{ns[j]}
    ensures multiset(Paths(nodes, ns)) == multiset(Paths(nodes, Without(ns, j))) + multiset{nodes[ns[j]].path}
    ensures SizeSum(nodes, ns) == SizeSum(nodes, Without(ns, j)) + nodes[ns[j]].size
  {
    var (a, b) := (ns[..j], ns[j + 1..]);
    assert ns == (a + [ns[j]]) + b;
    AppendNodes(nodes, a + [ns[j]], b);
    SnocNode(nodes, a, ns[j]);
    AppendNodes(nodes, a, b);
    hide Paths, SizeSum;
  }

  /** Neither the paths nor the sizes depend on the order. */
  lemma {:induction false} OrderIrrelevant(nodes: Nodes, a: seq<Node>, b: seq<Node>)
    requires multiset(a) == multiset(b) && (forall n :: n in a ==> n in nodes) && (forall n :: n in b ==> n in nodes)
    ensures multiset(Paths(nodes, a)) == multiset(Paths(nodes, b))
    ensures SizeSum(nodes, a) == SizeSum(nodes, b)
  {
    if a == [] {
      assert |multiset(b)| == 0 && b == [];
    } else {
      hide Paths, SizeSum, Without;
      assert a[0] in multiset(b);
      var j :| 0 <= j < |b| && b[j] == a[0];
      RemoveNode(nodes, a, 0);
      RemoveNode(nodes, b, j);
      assert multiset(Without(a, 0)) == multiset(a) - multiset{a[0]};
      assert multiset(Without(b, j)) == multiset(b) - multiset{a[0]};
      OrderIrrelevant(nodes, Without(a, 0), Without(b, j));
    }
  }

  /** The nodes that `r` dominates. */
  ghost function Dominated(edges: Edges, dt: DominatorTree, r: Node): set<Node> {
    set n | n in dt.idom && Dominates(edges, r, n)
  }

  /** `uint64(popularity) * size` */
  function Rating(popularity: int, size: nat): (r: nat)
    ensures r < U64
  {
    Wrap(Wrap(popularity) * size)
  }

  /** `size += s` */
  function Added(size: nat, s: nat): nat {
    Wrap(size + s)
  }

  lemma AddedMod(total: nat, s: nat)
    ensures Added(Wrap(total), s) == Wrap(total + s)
  {}

  ghost predicate InNodes(nodes: Nodes, ns: seq<Node>) {
    forall n :: n in ns ==> n in nodes
  }

  /** The layer that `r` heads, as a function of the nodes in it. */
  ghost function LayerOf(nodes: Nodes, r: Node, s: set<Node>): Layer
    requires r in nodes && forall n :: n in s ==> n in nodes
  {
    var ns := AnyOrder(s);
    Layer(Sort(Paths(nodes, ns)), Rating(nodes[r].popularity, Wrap(SizeSum(nodes, ns))))
  }

  /** The plain sum of the sizes of the closures. */
  ghost function TotalSize(nodes: Nodes, s: set<Node>): nat
    requires forall n :: n in s ==> n in nodes
  {
    if s == {} then 0 else nodes[Pick(s)].size + TotalSize(nodes, s - {Pick(s)})
  }

  lemma {:induction false} SumsAgree(nodes: Nodes, s: set<Node>)
    requires forall n :: n in s ==> n in nodes
    ensures SizeSum(nodes, AnyOrder(s)) == TotalSize(nodes, s)
  {
    if s != {} {
      SumsAgree(nodes, s - {Pick(s)});
      AppendNodes(nodes, [Pick(s)], AnyOrder(s - {Pick(s)}));
      SingleNode(nodes, Pick(s));
    }
  }

  lemma WrapProduct(a: int, b: nat)
    ensures Wrap(Wrap(a) * Wrap(b)) == (a * b) % 0x1_0000_0000_0000_0000
  {
    var (q, r) := (a / U64, a % U64);
    var (k, t) := (b / U64, b % U64);
    assert a * b == r * t + (q * b + r * k) * U64 by {
      assert a == q * U64 + r && b == k * U64 + t;
      assert a * b == q * U64 * b + r * b;
      assert r * b == r * k * U64 + r * t;
    }
    Multiples(r * t, q * b + r * k);
  }

  lemma Multiples(m: int, k: int)
    ensures (m + k * U64) % U64 == m % U64
  {}

  /** The rating is the popularity times the total size, in 64 bits. */
  lemma RatingIs(nodes: Nodes, r: Node, s: set<Node>)
    requires r in nodes && forall n :: n in s ==> n in nodes
    ensures LayerOf(nodes, r, s).mergeRating == (nodes[r].popularity * TotalSize(nodes, s)) % 0x1_0000_0000_0000_0000
  {
    SumsAgree(nodes, s);
    WrapProduct(nodes[r].popularity, TotalSize(nodes, s));
    WrapTwice(nodes[r].popularity, Wrap(TotalSize(nodes, s)));
    hide Paths, Sort, SizeSum, TotalSize, AnyOrder, Wrap;
  }

  lemma WrapTwice(a: int, b: nat)
    ensures Rating(a, b) == Wrap(Wrap(a) * b)
  {}

  lemma LayerOfAnyOrder(nodes: Nodes, r: Node, s: set<Node>, ns: seq<Node>)
    requires r in nodes && (forall n :: n in s ==> n in nodes) && Enumerates(ns, s)
    ensures LayerOf(nodes, r, s)
         == Layer(Sort(Paths(nodes, ns)), Rating(nodes[r].popularity, Wrap(SizeSum(nodes, ns))))
  {
    SameMultiset(ns, s);
    SameMultiset(AnyOrder(s), s);
    OrderIrrelevant(nodes, ns, AnyOrder(s));
    var (a, b) := (Paths(nodes, ns), Paths(nodes, AnyOrder(s)));
    SortSorted(a);
    SortSorted(b);
    SortedUnique(Sort(a), Sort(b));
  }

  /** What the loop of `groupLayer` has found after looking at the first `i` children. */
  ghost predicate Found(edges: Edges, dt: DominatorTree, r: Node, children: seq<Node>, i: nat) {
    && i <= |children|
    && NoDuplicates([r] + children)
    && (forall c :: c in children ==> c in dt.idom && Dominates(edges, r, c))
    && (forall c :: c in children ==> dt.idom[c] in [r] + children[..i])
    && (forall m :: m in dt.idom && dt.idom[m] in [r] + children[..i] ==> m in children)
  }

  lemma ChildFacts(edges: Edges, dt: DominatorTree, v: Node, c: Node)
    requires dt.Valid(edges) && c in dt.DominatedBy(v)
    ensures c in dt.idom && dt.idom[c] == v && StrictlyDominates(edges, v, c) && Reachable(edges, c)
  {
    assert Immediate(edges, dt.idom[c], c);
  }

  lemma NoDuplicatesAppend(a: seq<Node>, b: seq<Node>)
    requires NoDuplicates(a) && NoDuplicates(b) && forall n :: n in b ==> n !in a
    ensures NoDuplicates(a + b)
  {
    var c := a + b;
    forall i, j | 0 <= i < j < |c| ensures c[i] != c[j] {
      if i < |a| <= j {
        assert c[i] in a && c[j] in b;
      }
    }
  }

  lemma FirstChildren(edges: Edges, dt: DominatorTree, r: Node)
    requires dt.Valid(edges) && r in dt.idom
    ensures Found(edges, dt, r, dt.DominatedBy(r), 0)
  {
    var children := dt.DominatedBy(r);
    assert [r] + children[..0] == [r];
    forall c | c in children ensures c in dt.idom && Dominates(edges, r, c) && c != r {
      ChildFacts(edges, dt, r, c);
    }
    hide Dominates, IsTree;
    NoDuplicatesAppend([r], children);
  }

  /** A node below `v` has not been found before `v` is looked at. */
  lemma NotFoundYet(edges: Edges, dt: DominatorTree, r: Node, children: seq<Node>, i: nat, c: Node)
    requires dt.Valid(edges) && r in dt.idom && Found(edges, dt, r, children, i) && i < |children|
    requires c in dt.DominatedBy(children[i])
    ensures Dominates(edges, r, c) && c !in [r] + children
  {
    var (v, all) := (children[i], [r] + children);
    ChildFacts(edges, dt, v, c);
    Transitive(edges, r, v, c);
    assert forall k :: 0 <= k <= i ==> all[k] == ([r] + children[..i])[k] && all[k] != all[i + 1];
    assert v !in [r] + children[..i];
    if c == r {
      Antisymmetric(edges, v, r);
    }
    hide Dominates, IsTree, DominatorTree.Valid;
  }

  lemma MoreChildren(edges: Edges, dt: DominatorTree, r: Node, children: seq<Node>, i: nat)
    requires dt.Valid(edges) && r in dt.idom && Found(edges, dt, r, children, i) && i < |children|
    ensures Found(edges, dt, r, children + dt.DominatedBy(children[i]), i + 1)
  {
    var (v, more) := (children[i], dt.DominatedBy(children[i]));
    var children' := children + more;
    assert NoDuplicates([r] + children') by {
      forall c | c in more ensures c !in [r] + children {
        NotFoundYet(edges, dt, r, children, i, c);
      }
      NoDuplicatesAppend([r] + children, more);
      assert [r] + children' == ([r] + children) + more;
    }
    forall c | c in more ensures c in dt.idom && dt.idom[c] == v && Dominates(edges, r, c) {
      NotFoundYet(edges, dt, r, children, i, c);
      ChildFacts(edges, dt, v, c);
    }
    hide Dominates, IsTree, NoDuplicates;
    assert [r] + children'[..i + 1] == ([r] + children[..i]) + [v];
  }

  /** When all children have been looked at, they are everything that is dominated. */
  lemma AllFound(edges: Edges, dt: DominatorTree, r: Node, children: seq<Node>)
    requires dt.Valid(edges) && r in dt.idom && Found(edges, dt, r, children, |children|)
    ensures Enumerates([r] + children, Dominated(edges, dt, r))
  {
    var s := set n | n in [r] + children;
    assert children[..|children|] == children;
    DominatesSelf(edges, r);
    forall n | n in dt.idom && Dominates(edges, r, n) ensures n in [r] + children {
      assert Reachable(edges, n);
      var p :| Leads(edges, p, n);
      ClosedHoldsDominated(edges, dt.idom, r, s, p, n);
    }
  }

  lemma {:induction false} Bounded(ns: seq<Node>, s: set<Node>)
    requires NoDuplicates(ns) && forall n :: n in ns ==> n in s
    ensures |ns| <= |s|
  {
    if ns != [] {
      Bounded(ns[..|ns| - 1], s - {ns[|ns| - 1]});
    }
  }

  /** The state of the loop of `groupLayer`. */
  ghost predicate Grouped(nodes: Nodes, edges: Edges, dt: DominatorTree, r: Node,
                          children: seq<Node>, i: nat, contents: seq<string>, size: nat) {
    && Found(edges, dt, r, children, i)
    && |children| < |dt.idom.Keys|
    && InNodes(nodes, [r] + children)
    && contents == Paths(nodes, [r] + children[..i])
    && size == Wrap(SizeSum(nodes, [r] + children[..i]))
  }

  lemma FoundFacts(nodes: Nodes, edges: Edges, dt: DominatorTree, r: Node, children: seq<Node>, i: nat)
    requires Found(edges, dt, r, children, i) && r in dt.idom && Covers(nodes, dt)
    ensures |children| < |dt.idom.Keys| && InNodes(nodes, [r] + children)
  {
    Bounded([r] + children, dt.idom.Keys);
  }

  lemma GroupedStart(nodes: Nodes, edges: Edges, dt: DominatorTree, r: Node)
    requires dt.Valid(edges) && Covers(nodes, dt) && r in dt.idom
    ensures Grouped(nodes, edges, dt, r, dt.DominatedBy(r), 0, [nodes[r].path], Added(0, nodes[r].size))
  {
    var children := dt.DominatedBy(r);
    FirstChildren(edges, dt, r);
    FoundFacts(nodes, edges, dt, r, children, 0);
    assert [r] + children[..0] == [r];
    SingleNode(nodes, r);
    hide Found, DominatorTree.Valid, DominatorTree.DominatedBy, Paths, SizeSum;
  }

  lemma GroupedStep(nodes: Nodes, edges: Edges, dt: DominatorTree, r: Node,
                    children: seq<Node>, i: nat, contents: seq<string>, size: nat)
    requires dt.Valid(edges) && Covers(nodes, dt) && r in dt.idom
    requires Grouped(nodes, edges, dt, r, children, i, contents, size) && i < |children|
    ensures children[i] in nodes
    ensures var c := nodes[children[i]];
      Grouped(nodes, edges, dt, r, children + dt.DominatedBy(children[i]), i + 1, contents + [c.path], Added(size, c.size))
  {
    hide Found, DominatorTree.Valid, DominatorTree.DominatedBy, Paths, SizeSum, Added;
    var (v, visited) := (children[i], [r] + children[..i]);
    assert forall n :: n in visited + [v] ==> n in [r] + children;
    SnocNode(nodes, visited, v);
    AddedMod(SizeSum(nodes, visited), nodes[v].size);
    MoreChildren(edges, dt, r, children, i);
    var children' := children + dt.DominatedBy(v);
    FoundFacts(nodes, edges, dt, r, children', i + 1);
    assert [r] + children'[..i + 1] == visited + [v];
  }

  lemma GroupedEnd(nodes: Nodes, edges: Edges, dt: DominatorTree, r: Node, children: seq<Node>, contents: seq<string>, size: nat)
    requires dt.Valid(edges) && Covers(nodes, dt) && r in dt.idom
    requires Grouped(nodes, edges, dt, r, children, |children|, contents, size)
    ensures Layer(Sort(contents), Rating(nodes[r].popularity, size)) == LayerOf(nodes, r, Dominated(edges, dt, r))
  {
    hide DominatorTree.Valid, Found, Paths, SizeSum, Sort, Rating, LayerOf, Dominated;
    assert children[..|children|] == children;
    AllFound(edges, dt, r, children);
    DominatedInNodes(nodes, edges, dt, r);
    LayerOfAnyOrder(nodes, r, Dominated(edges, dt, r), [r] + children);
  }

  /** A closure with this path lies behind `r` on every path from the image root. */
  ghost predicate LiesBehind(nodes: Nodes, edges: Edges, dt: DominatorTree, r: Node, path: string)
    requires Covers(nodes, dt)
  {
    exists n :: n in dt.idom && Dominates(edges, r, n) && nodes[n].path == path
  }

  /** Main result, `groupLayer`: the layer holds exactly the closures that every path from the
      image root reaches through the root of the subtree, sorted, whatever the order in which
      the library lists children; and it is the same layer for every such order. */
  method GroupLayer(nodes: Nodes, ghost edges: Edges, dt: DominatorTree, root: Node) returns (layer: Layer)
    requires dt.Valid(edges) && Covers(nodes, dt) && root in dt.idom
    ensures forall path :: path in layer.contents <==> LiesBehind(nodes, edges, dt, root, path)
    ensures Sorted(layer.contents)
    ensures layer == LayerOf(nodes, root, Dominated(edges, dt, root))
    ensures layer.mergeRating
         == (nodes[root].popularity * TotalSize(nodes, Dominated(edges, dt, root))) % 0x1_0000_0000_0000_0000
  {
    RatingIs(nodes, root, Dominated(edges, dt, root));
    var size := Added(0, nodes[root].size);
    var contents := [nodes[root].path];
    var children := dt.DominatedBy(root);
    var i := 0;
    GroupedStart(nodes, edges, dt, root);
    hide Found, Paths, SizeSum, DominatorTree.Valid, DominatorTree.DominatedBy, Sort, Rating, Added, LayerOf, TotalSize, Dominated, InNodes, LiesBehind, Sorted;
    while i < |children|
      invariant i <= |children| < |dt.idom.Keys|
      invariant Grouped(nodes, edges, dt, root, children, i, contents, size)
      decreases |dt.idom.Keys| - i
    {
      GroupedStep(nodes, edges, dt, root, children, i, contents, size);
      var child := nodes[children[i]];
      size := Added(size, child.size);
      contents := contents + [child.path];
      children := children + dt.DominatedBy(children[i]);
      i := i + 1;
    }
    GroupedEnd(nodes, edges, dt, root, children, contents, size);
    LayerBehind(nodes, edges, dt, root);
    SortSorted(contents);
    layer := Layer(Sort(contents), Rating(nodes[root].popularity, size));
  }

  lemma DominatedInNodes(nodes: Nodes, edges: Edges, dt: DominatorTree, r: Node)
    requires Covers(nodes, dt)
    ensures forall n :: n in Dominated(edges, dt, r) ==> n in nodes
  {}

  lemma LayerBehind(nodes: Nodes, edges: Edges, dt: DominatorTree, r: Node)
    requires dt.Valid(edges) && Covers(nodes, dt) && r in dt.idom
    ensures forall path :: path in LayerOf(nodes, r, Dominated(edges, dt, r)).contents <==> LiesBehind(nodes, edges, dt, r, path)
  {
    DominatedInNodes(nodes, edges, dt, r);
    hide DominatorTree.Valid, LayerOf, Dominated, Dominates;
    forall path
      ensures path in LayerOf(nodes, r, Dominated(edges, dt, r)).contents <==> LiesBehind(nodes, edges, dt, r, path)
    {
      LayerHolds(nodes, edges, dt, r, path);
    }
  }

  lemma LayerHolds(nodes: Nodes, edges: Edges, dt: DominatorTree, r: Node, path: string)
    requires dt.Valid(edges) && Covers(nodes, dt) && r in dt.idom
    ensures path in LayerOf(nodes, r, Dominated(edges, dt, r)).contents
      <==> LiesBehind(nodes, edges, dt, r, path)
  {
    DominatedInNodes(nodes, edges, dt, r);
    var ns := AnyOrder(Dominated(edges, dt, r));
    InPaths(nodes, ns, path);
    hide Paths, Sort, SizeSum, Rating, Dominates, DominatorTree.Valid;
    assert path in Sort(Paths(nodes, ns)) <==> path in multiset(Sort(Paths(nodes, ns)));
  }

  lemma InPaths(nodes: Nodes, ns: seq<Node>, path: string)
    requires InNodes(nodes, ns)
    ensures path in multiset(Paths(nodes, ns)) <==> exists n :: n in ns && nodes[n].path == path
  {
    var ps := Paths(nodes, ns);
    assert path in multiset(ps) <==> path in ps;
    forall n | n in ns && nodes[n].path == path ensures path in ps {
      var k :| 0 <= k < |ns| && ns[k] == n;
      assert ps[k] == path;
    }
  }

  /** Main result: a big or popular closure heads a layer of its own (the last one, where a
      path is listed several times). */
  lemma BigOrPopularHeads(refs: RuntimeGraph, pop: Popularity, edges: Edges, dt: DominatorTree, i: nat)
    requires Complete(refs) && EdgesWanted(refs, pop, edges) && dt.Valid(edges)
    requires Latest(refs, i, |refs.graph|) && ClosureOf(refs, pop, i).BigOrPopular()
    ensures i + 1 in dt.DominatedBy(ROOT)
  {
    assert Wanted(refs, pop, ROOT, i + 1);
    EdgeFromRoot(edges, dt.idom, i + 1);
  }
}
