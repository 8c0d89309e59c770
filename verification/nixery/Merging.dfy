// All layers of an image: together they hold every closure once, and merging keeps that.
module Merging {
  import opened Dominators
  import opened Layers
  import opened Grouping

  /** The contents of all layers, one after the other. */
  function Flat(ls: seq<Layer>): seq<string> {
    if ls == [] then [] else Flat(ls[..|ls| - 1]) + ls[|ls| - 1].contents
  }

  function Total(ls: seq<Layer>): nat {
    if ls == [] then 0 else Total(ls[..|ls| - 1]) + ls[|ls| - 1].mergeRating
  }

  lemma SnocLayer(ls: seq<Layer>, l: Layer)
    ensures Flat(ls + [l]) == Flat(ls) + l.contents
    ensures Total(ls + [l]) == Total(ls) + l.mergeRating
  {
    assert (ls + [l])[..|ls|] == ls;
  }

  lemma {:induction false} AppendLayers(a: seq<Layer>, b: seq<Layer>)
    ensures Flat(a + b) == Flat(a) + Flat(b)
    ensures Total(a + b) == Total(a) + Total(b)
  {
    if b == [] {
      assert a + b == a;
    } else {
      var n := |b| - 1;
      AppendLayers(a, b[..n]);
      assert (a + b[..n]) + [b[n]] == a + b && b[..n] + [b[n]] == b;
      SnocLayer(a + b[..n], b[n]);
      SnocLayer(b[..n], b[n]);
    }
  }

  /** The layers headed by the nodes in `tops`. */
  ghost predicate Headed(nodes: Nodes, edges: Edges, dt: DominatorTree, tops: seq<Node>, layers: seq<Layer>)
    requires Covers(nodes, dt)
  {
    && |layers| == |tops|
    && forall k :: 0 <= k < |tops| ==> tops[k] in dt.idom && layers[k] == LayerOf(nodes, tops[k], Dominated(edges, dt, tops[k]))
  }

  // ---- Before merging, the layers partition the closures

  ghost predicate Distinct(nodes: Nodes, s: set<Node>) {
    && (forall n :: n in s ==> n in nodes)
    && forall n, m :: n in s && m in s && nodes[n].path == nodes[m].path ==> n == m
  }

  ghost predicate HasPath(nodes: Nodes, s: set<Node>, path: string)
    requires forall n :: n in s ==> n in nodes
  {
    exists n :: n in s && nodes[n].path == path
  }

  lemma {:induction false} EachOnce(nodes: Nodes, ns: seq<Node>, s: set<Node>, path: string)
    requires Enumerates(ns, s) && Distinct(nodes, s)
    ensures multiset(Paths(nodes, ns))[path] == if HasPath(nodes, s, path) then 1 else 0
  {
    if ns == [] {
      assert s == {};
    } else {
      var k := |ns| - 1;
      EachOnce(nodes, ns[..k], s - {ns[k]}, path);
      assert ns[..k] + [ns[k]] == ns;
      SnocNode(nodes, ns[..k], ns[k]);
      assert HasPath(nodes, s, path) <==> HasPath(nodes, s - {ns[k]}, path) || nodes[ns[k]].path == path;
    }
  }

  /** A layer holds each of its closures once. */
  lemma LayerHoldsEachOnce(nodes: Nodes, r: Node, s: set<Node>, path: string)
    requires r in nodes && Distinct(nodes, s)
    ensures multiset(LayerOf(nodes, r, s).contents)[path] == if HasPath(nodes, s, path) then 1 else 0
  {
    EachOnce(nodes, AnyOrder(s), s, path);
  }

  /** What the first `k` of the tops dominate. */
  ghost function Below(edges: Edges, dt: DominatorTree, tops: seq<Node>): set<Node> {
    set n | n in dt.idom && exists r :: r in tops && Dominates(edges, r, n)
  }

  ghost predicate AreTops(dt: DominatorTree, tops: seq<Node>) {
    NoDuplicates(tops) && forall r :: r in tops ==> r in dt.idom && dt.idom[r] == ROOT
  }

  /** What one more top dominates is not dominated by the others. */
  lemma OneMoreTop(edges: Edges, dt: DominatorTree, tops: seq<Node>, r: Node)
    requires dt.Valid(edges) && AreTops(dt, tops + [r])
    ensures Below(edges, dt, tops + [r]) == Below(edges, dt, tops) + Dominated(edges, dt, r)
    ensures Below(edges, dt, tops) !! Dominated(edges, dt, r)
  {
    var all := tops + [r];
    assert all[|tops|] == r && forall k :: 0 <= k < |tops| ==> all[k] == tops[k];
    assert r !in tops;
    forall n, t | n in dt.idom && t in tops && Dominates(edges, t, n) ensures !Dominates(edges, r, n) {
      assert t in all && Reachable(edges, n);
      var p :| Leads(edges, p, n);
      if Dominates(edges, r, n) {
        TopUnique(edges, dt.idom, p, n, r, t);
      }
    }
    hide Dominates, DominatorTree.Valid;
  }

  lemma {:induction false} LayersHold(nodes: Nodes, edges: Edges, dt: DominatorTree, tops: seq<Node>, layers: seq<Layer>, path: string)
    requires dt.Valid(edges) && Distinct(nodes, dt.idom.Keys) && Covers(nodes, dt)
    requires AreTops(dt, tops) && Headed(nodes, edges, dt, tops, layers)
    ensures multiset(Flat(layers))[path] == if HasPath(nodes, Below(edges, dt, tops), path) then 1 else 0
  {
    hide DominatorTree.Valid, Dominates, LayerOf, NoDuplicates;
    if tops != [] {
      var k := |tops| - 1;
      var (before, r) := (tops[..k], tops[k]);
      assert before + [r] == tops && layers[..k] + [layers[k]] == layers;
      FewerTops(dt, before, r);
      LayersHold(nodes, edges, dt, before, layers[..k], path);
      SnocLayer(layers[..k], layers[k]);
      OneMoreTop(edges, dt, before, r);
      hide Flat;
      LayerHoldsEachOnce(nodes, r, Dominated(edges, dt, r), path);
      UnionHasPath(nodes, dt, Below(edges, dt, before), Dominated(edges, dt, r), path);
    }
  }

  lemma FewerTops(dt: DominatorTree, tops: seq<Node>, r: Node)
    requires AreTops(dt, tops + [r])
    ensures AreTops(dt, tops)
  {
    assert forall k :: 0 <= k < |tops| ==> tops[k] == (tops + [r])[k];
  }

  lemma UnionHasPath(nodes: Nodes, dt: DominatorTree, a: set<Node>, b: set<Node>, path: string)
    requires Distinct(nodes, dt.idom.Keys) && a <= dt.idom.Keys && b <= dt.idom.Keys && a !! b
    ensures HasPath(nodes, a + b, path) <==> HasPath(nodes, a, path) || HasPath(nodes, b, path)
    ensures !(HasPath(nodes, a, path) && HasPath(nodes, b, path))
  {
    if HasPath(nodes, a, path) {
      var n :| n in a && nodes[n].path == path;
      assert n in a + b;
    }
    if HasPath(nodes, b, path) {
      var n :| n in b && nodes[n].path == path;
      assert n in a + b;
    }
  }

  lemma AllBelow(edges: Edges, dt: DominatorTree)
    requires dt.Valid(edges)
    ensures Below(edges, dt, dt.DominatedBy(ROOT)) == dt.idom.Keys
    ensures AreTops(dt, dt.DominatedBy(ROOT))
  {
    var tops := dt.DominatedBy(ROOT);
    forall n | n in dt.idom ensures n in Below(edges, dt, tops) {
      assert Reachable(edges, n);
      var p :| Leads(edges, p, n);
      var r := TopExists(edges, dt.idom, p, n);
    }
  }

  /** Some path of edges leads from the root to a closure with this store path. */
  ghost predicate Reaches(nodes: Nodes, edges: Edges, path: string) {
    exists n :: n in nodes && n != ROOT && Reachable(edges, n) && nodes[n].path == path
  }

  /** Main result: before merging, every closure that can be reached is in one layer, once. */
  lemma Partition(nodes: Nodes, edges: Edges, dt: DominatorTree, layers: seq<Layer>, path: string)
    requires dt.Valid(edges) && Distinct(nodes, dt.idom.Keys) && Covers(nodes, dt)
    requires Headed(nodes, edges, dt, dt.DominatedBy(ROOT), layers)
    ensures multiset(Flat(layers))[path] == if Reaches(nodes, edges, path) then 1 else 0
  {
    hide Flat, Headed, Below, AreTops, DominatorTree.DominatedBy, Dominates, Reachable;
    AllBelow(edges, dt);
    LayersHold(nodes, edges, dt, dt.DominatedBy(ROOT), layers, path);
    assert forall n :: n in dt.idom <==> n != ROOT && Reachable(edges, n);
    hide DominatorTree.Valid, IsTree;
  }

  // ---- Sorting and merging

  predicate Ascending(ls: seq<Layer>) {
    forall i, j :: 0 <= i < j < |ls| ==> ls[i].mergeRating <= ls[j].mergeRating
  }

  lemma {:induction false} SameLayers(a: seq<Layer>, b: seq<Layer>)
    requires multiset(a) == multiset(b)
    ensures multiset(Flat(a)) == multiset(Flat(b)) && Total(a) == Total(b)
    decreases |a|
  {
    hide Flat, Total, Fewer;
    if a == [] {
      assert |multiset(b)| == 0 && b == [];
    } else {
      assert a[0] in multiset(b);
      var j :| 0 <= j < |b| && b[j] == a[0];
      FewerSame(a, 0, b, j);
      SameLayers(Fewer(a, 0), Fewer(b, j));
      RemoveLayer(a, 0);
      RemoveLayer(b, j);
    }
  }

  lemma FewerSame(a: seq<Layer>, i: nat, b: seq<Layer>, j: nat)
    requires i < |a| && j < |b| && a[i] == b[j] && multiset(a) == multiset(b)
    ensures multiset(Fewer(a, i)) == multiset(Fewer(b, j)) && |Fewer(a, i)| == |a| - 1
  {
    hide Fewer, Flat, Total;
    RemoveLayer(a, i);
    RemoveLayer(b, j);
    assert multiset(Fewer(a, i)) == multiset(a) - multiset{a[i]};
    assert multiset(Fewer(b, j)) == multiset(b) - multiset{a[i]};
  }

  function Fewer(ls: seq<Layer>, j: nat): seq<Layer>
    requires j < |ls|
  {
    ls[..j] + ls[j + 1..]
  }

  lemma RemoveLayer(ls: seq<Layer>, j: nat)
    requires j < |ls|
    ensures |Fewer(ls, j)| == |ls| - 1
    ensures multiset(ls) == multiset(Fewer(ls, j)) + multiset{ls[j]}
    ensures multiset(Flat(ls)) == multiset(Flat(Fewer(ls, j))) + multiset(ls[j].contents)
    ensures Total(ls) == Total(Fewer(ls, j)) + ls[j].mergeRating
  {
    var (a, b) := (ls[..j], ls[j + 1..]);
    assert ls == (a + [ls[j]]) + b;
    AppendLayers(a + [ls[j]], b);
    SnocLayer(a, ls[j]);
    AppendLayers(a, b);
    hide Flat, Total;
  }

  function InsertLayer(l: Layer, ls: seq<Layer>): (r: seq<Layer>)
    ensures |r| == |ls| + 1
  {
    if ls == [] then [l]
    else if l.mergeRating <= ls[0].mergeRating then [l] + ls
    else [ls[0]] + InsertLayer(l, ls[1..])
  }

  lemma {:induction false} InsertLayerKeeps(l: Layer, ls: seq<Layer>)
    ensures multiset(InsertLayer(l, ls)) == multiset(ls) + multiset{l}
  {
    if ls != [] {
      assert ls == [ls[0]] + ls[1..];
      InsertLayerKeeps(l, ls[1..]);
    }
  }

  lemma {:induction false} InsertLayerSorts(l: Layer, ls: seq<Layer>)
    requires Ascending(ls)
    ensures Ascending(InsertLayer(l, ls))
  {
    if ls != [] && l.mergeRating > ls[0].mergeRating {
      InsertLayerSorts(l, ls[1..]);
      var r := InsertLayer(l, ls[1..]);
      InsertLayerKeeps(l, ls[1..]);
      forall y | y in r ensures y.mergeRating >= ls[0].mergeRating {
        assert y in multiset(r);
      }
    }
  }

  /** `sort.Slice` by rating. */
  function SortByRating(ls: seq<Layer>): (r: seq<Layer>)
    ensures |r| == |ls|
  {
    if ls == [] then [] else InsertLayer(ls[0], SortByRating(ls[1..]))
  }

  lemma {:induction false} SortByRatingSorts(ls: seq<Layer>)
    ensures Ascending(SortByRating(ls)) && multiset(SortByRating(ls)) == multiset(ls)
  {
    if ls != [] {
      SortByRatingSorts(ls[1..]);
      InsertLayerSorts(ls[0], SortByRating(ls[1..]));
      InsertLayerKeeps(ls[0], SortByRating(ls[1..]));
      assert ls == [ls[0]] + ls[1..];
    }
  }

  ghost predicate Fits(ls: seq<Layer>) {
    forall k :: 0 <= k < |ls| ==> ls[k].mergeRating < U64
  }

  /** The first `k + 1` layers in one, and the others as they are. */
  ghost function Squeezed(ls: seq<Layer>, k: nat): seq<Layer>
    requires k == 0 || k < |ls|
  {
    if k == 0 then ls
    else [Layer(Flat(ls[..k + 1]), Wrap(Total(ls[..k + 1])))] + ls[k + 1..]
  }

  lemma SqueezeMore(ls: seq<Layer>, k: nat)
    requires k + 1 < |ls| && Fits(ls)
    ensures var s := Squeezed(ls, k);
      |s| == |ls| - k && |s| >= 2 && [s[0].Merge(s[1])] + s[2..] == Squeezed(ls, k + 1)
  {
    hide Flat, Total, Wrap;
    var s := Squeezed(ls, k);
    assert ls[..k + 2] == ls[..k + 1] + [ls[k + 1]];
    SnocLayer(ls[..k + 1], ls[k + 1]);
    ModTotal(Total(ls[..k + 1]), ls[k + 1].mergeRating);
    assert s[1] == ls[k + 1] && s[2..] == ls[k + 2..];
    if k == 0 {
      OneLayer(ls[0]);
      assert ls[..1] == [ls[0]];
    }
  }

  lemma OneLayer(l: Layer)
    ensures Flat([l]) == l.contents && Total([l]) == l.mergeRating
  {
    assert [l][..0] == [];
    assert Flat([l]) == Flat([]) + l.contents;
  }

  lemma ModTotal(a: nat, b: nat)
    ensures Wrap(Wrap(a) + b) == Wrap(a + b)
  {}

  lemma Split(ls: seq<Layer>, k: nat) returns (a: seq<Layer>, b: seq<Layer>)
    requires 0 < k < |ls|
    ensures a + b == ls && Squeezed(ls, k) == [Layer(Flat(a), Wrap(Total(a)))] + b
  {
    a, b := ls[..k + 1], ls[k + 1..];
  }

  /** Main result: merging keeps every path as often as it was there, and the total of the
      ratings modulo 2^64. */
  lemma MergingConserves(ls: seq<Layer>, k: nat)
    requires k == 0 || k < |ls|
    ensures Flat(Squeezed(ls, k)) == Flat(ls)
    ensures Wrap(Total(Squeezed(ls, k))) == Wrap(Total(ls))
  {
    hide *;
    if k == 0 {
      NothingSqueezed(ls);
    } else {
      var a, b := Split(ls, k);
      AppendLayers(a, b);
      var first := Layer(Flat(a), Wrap(Total(a)));
      AppendLayers([first], b);
      OneLayer(first);
      ModTotal(Total(a), Total(b));
    }
  }

  lemma RatingsFit(nodes: Nodes, edges: Edges, dt: DominatorTree, tops: seq<Node>, layers: seq<Layer>, sorted: seq<Layer>)
    requires Covers(nodes, dt) && Headed(nodes, edges, dt, tops, layers) && multiset(sorted) == multiset(layers)
    ensures Fits(sorted) && |sorted| == |layers|
  {
    assert |multiset(sorted)| == |multiset(layers)|;
    forall k | 0 <= k < |sorted| ensures sorted[k].mergeRating < U64 {
      assert sorted[k] in multiset(layers);
      var j :| 0 <= j < |layers| && layers[j] == sorted[k];
    }
  }

  /** Within the budget nothing changes; over it, the `budget - 1` highest-rated layers are
      untouched behind one that all the others are merged into. */
  ghost predicate Fitted(sorted: seq<Layer>, budget: int, layers: seq<Layer>) {
    if |sorted| <= budget then layers == sorted
    else budget >= 1 && layers == Squeezed(sorted, |sorted| - budget)
  }

  /** The loop of `dominate` that merges the two layers in front. */
  method MergeToBudget(budget: int, sorted: seq<Layer>) returns (layers: seq<Layer>)
    requires Fits(sorted) && (budget >= 1 || |sorted| <= budget)
    ensures |layers| == (if |sorted| <= budget then |sorted| else budget) && Fitted(sorted, budget, layers)
  {
    layers := sorted;
    ghost var merges := 0;
    NothingSqueezed(sorted);
    hide Squeezed, Fits;
    while |layers| > budget
      invariant merges == 0 || (merges < |sorted| && |layers| >= budget)
      invariant layers == Squeezed(sorted, merges) && |layers| == |sorted| - merges
    {
      SqueezeMore(sorted, merges);
      var merged := layers[0].Merge(layers[1]);
      layers := [merged] + layers[2..];
      merges := merges + 1;
    }
    NothingSqueezed(sorted);
  }

  /** The loop of `dominate` over the children of the root. */
  method GroupTops(nodes: Nodes, ghost edges: Edges, dt: DominatorTree) returns (layers: seq<Layer>)
    requires dt.Valid(edges) && Covers(nodes, dt)
    ensures Headed(nodes, edges, dt, dt.DominatedBy(ROOT), layers)
  {
    var tops := dt.DominatedBy(ROOT);
    layers := [];
    TopsInTree(edges, dt);
    hide LayerOf, Dominated, Covers, DominatorTree.Valid, DominatorTree.DominatedBy;
    for k := 0 to |tops|
      invariant Headed(nodes, edges, dt, tops[..k], layers)
    {
      var layer := GroupLayer(nodes, edges, dt, tops[k]);
      OneMoreHeaded(nodes, edges, dt, tops, k, layers);
      layers := layers + [layer];
    }
    assert tops[..|tops|] == tops;
  }

  /** The layers of the root's children in ascending order of their ratings. */
  ghost predicate Ordered(nodes: Nodes, edges: Edges, dt: DominatorTree, grouped: seq<Layer>, sorted: seq<Layer>)
    requires Covers(nodes, dt)
  {
    Headed(nodes, edges, dt, dt.DominatedBy(ROOT), grouped) && multiset(sorted) == multiset(grouped) && Ascending(sorted)
  }

  lemma SortOrders(nodes: Nodes, edges: Edges, dt: DominatorTree, grouped: seq<Layer>)
    requires Covers(nodes, dt) && Headed(nodes, edges, dt, dt.DominatedBy(ROOT), grouped)
    ensures Ordered(nodes, edges, dt, grouped, SortByRating(grouped)) && Fits(SortByRating(grouped))
    ensures |grouped| == |dt.DominatedBy(ROOT)|
  {
    SortByRatingSorts(grouped);
    RatingsFit(nodes, edges, dt, dt.DominatedBy(ROOT), grouped, SortByRating(grouped));
  }

  /** `dominate` */
  method Dominate(budget: int, nodes: Nodes, ghost edges: Edges, dt: DominatorTree) returns (layers: seq<Layer>)
    requires dt.Valid(edges) && Covers(nodes, dt)
    requires budget >= 1 || |dt.DominatedBy(ROOT)| <= budget
    ensures |layers| == if |dt.DominatedBy(ROOT)| <= budget then |dt.DominatedBy(ROOT)| else budget
    ensures exists grouped, sorted :: Ordered(nodes, edges, dt, grouped, sorted) && Fitted(sorted, budget, layers)
    ensures Wrap(Total(layers)) == Wrap(Total(Ideal(nodes, edges, dt)))
  {
    hide Covers, DominatorTree.Valid, DominatorTree.DominatedBy, Headed, Ordered, Fits, Fitted, SortByRating, Total, Wrap, Ideal;
    layers := GroupTops(nodes, edges, dt);
    ghost var grouped := layers;
    SortOrders(nodes, edges, dt, grouped);
    layers := SortByRating(layers);
    ghost var sorted := layers;
    layers := MergeToBudget(budget, layers);
    assert Ordered(nodes, edges, dt, grouped, sorted) && Fitted(sorted, budget, layers);
    RatingsKept(nodes, edges, dt, grouped, sorted, budget, layers);
  }

  /** The layers before they are sorted and merged. */
  ghost function Ideal(nodes: Nodes, edges: Edges, dt: DominatorTree): (layers: seq<Layer>)
    requires dt.Valid(edges) && Covers(nodes, dt)
    ensures Headed(nodes, edges, dt, dt.DominatedBy(ROOT), layers)
  {
    TopsInTree(edges, dt);
    var tops := dt.DominatedBy(ROOT);
    seq(|tops|, k requires 0 <= k < |tops| => LayerOf(nodes, tops[k], Dominated(edges, dt, tops[k])))
  }

  /** Sorting and merging keep the total of the ratings modulo 2^64. */
  lemma RatingsKept(nodes: Nodes, edges: Edges, dt: DominatorTree,
                    grouped: seq<Layer>, sorted: seq<Layer>, budget: int, layers: seq<Layer>)
    requires dt.Valid(edges) && Covers(nodes, dt)
    requires Ordered(nodes, edges, dt, grouped, sorted) && Fitted(sorted, budget, layers)
    ensures Wrap(Total(layers)) == Wrap(Total(Ideal(nodes, edges, dt)))
  {
    hide LayerOf, Dominated, Total, Wrap, Flat, DominatorTree.Valid, Covers, Squeezed, Ascending;
    assert grouped == Ideal(nodes, edges, dt);
    hide Headed, Ideal;
    SameLayers(sorted, grouped);
    if |sorted| > budget {
      MergingConserves(sorted, |sorted| - budget);
    }
  }

  lemma OneMoreHeaded(nodes: Nodes, edges: Edges, dt: DominatorTree, tops: seq<Node>, k: nat, layers: seq<Layer>)
    requires Covers(nodes, dt) && k < |tops| && tops[k] in dt.idom && Headed(nodes, edges, dt, tops[..k], layers)
    ensures Headed(nodes, edges, dt, tops[..k + 1], layers + [LayerOf(nodes, tops[k], Dominated(edges, dt, tops[k]))])
  {}

  lemma NothingSqueezed(ls: seq<Layer>)
    ensures Squeezed(ls, 0) == ls
  {}

  lemma TopsInTree(edges: Edges, dt: DominatorTree)
    requires dt.Valid(edges)
    ensures forall r :: r in dt.DominatedBy(ROOT) ==> r in dt.idom
  {}

  // ---- The order of children

  ghost predicate StrictlyAscending(ls: seq<Layer>) {
    forall i, j :: 0 <= i < j < |ls| ==> ls[i].mergeRating < ls[j].mergeRating
  }

  lemma {:induction false} AscendingUnique(a: seq<Layer>, b: seq<Layer>)
    requires StrictlyAscending(a) && StrictlyAscending(b) && forall l :: l in a <==> l in b
    ensures a == b
  {
    assert |a| > 0 ==> a[0] in a;
    assert |b| > 0 ==> b[0] in b;
    if a != [] && b != [] {
      var (n, m) := (|a| - 1, |b| - 1);
      assert a[n] in b && b[m] in a;
      assert a[n] == b[m];
      forall l ensures l in a[..n] <==> l in b[..m] {
        NotLast(a, l);
        NotLast(b, l);
      }
      AscendingUnique(a[..n], b[..m]);
    }
  }

  lemma NotLast(a: seq<Layer>, l: Layer)
    requires StrictlyAscending(a) && a != []
    ensures l in a[..|a| - 1] <==> l in a && l != a[|a| - 1]
  {}

  ghost predicate Top(dt: DominatorTree, r: Node) {
    r in dt.idom && dt.idom[r] == ROOT
  }

  ghost function RatingOf(nodes: Nodes, edges: Edges, dt: DominatorTree, r: Node): nat
    requires Covers(nodes, dt) && r in dt.idom
  {
    LayerOf(nodes, r, Dominated(edges, dt, r)).mergeRating
  }

  /** The ratings of the root's children all differ. */
  ghost predicate RatingsDiffer(nodes: Nodes, edges: Edges, dt: DominatorTree)
    requires Covers(nodes, dt)
  {
    forall r, t :: Top(dt, r) && Top(dt, t) && r != t ==> RatingOf(nodes, edges, dt, r) != RatingOf(nodes, edges, dt, t)
  }

  lemma HeadedIs(nodes: Nodes, edges: Edges, dt: DominatorTree, l: Layer)
    requires dt.Valid(edges) && Covers(nodes, dt)
    ensures l in Ideal(nodes, edges, dt)
      <==> Heads(nodes, edges, dt, l)
  {
    var (ls, tops) := (Ideal(nodes, edges, dt), dt.DominatedBy(ROOT));
    hide LayerOf, Dominated, Ideal;
    forall r | r in dt.idom && dt.idom[r] == ROOT && l == LayerOf(nodes, r, Dominated(edges, dt, r)) ensures l in ls {
      assert r in tops;
      var k :| 0 <= k < |tops| && tops[k] == r;
      assert ls[k] == l;
    }
  }

  ghost predicate Different(ls: seq<Layer>) {
    forall i, j :: 0 <= i < j < |ls| ==> ls[i].mergeRating != ls[j].mergeRating
  }

  lemma IdealDifferent(nodes: Nodes, edges: Edges, dt: DominatorTree)
    requires dt.Valid(edges) && Covers(nodes, dt) && RatingsDiffer(nodes, edges, dt)
    ensures Different(Ideal(nodes, edges, dt))
  {
    var (ls, tops) := (Ideal(nodes, edges, dt), dt.DominatedBy(ROOT));
    assert NoDuplicates(tops);
    hide LayerOf, Dominated, IsTree, Ideal;
    forall i, j | 0 <= i < j < |ls| ensures ls[i].mergeRating != ls[j].mergeRating {
      assert tops[i] in tops && tops[j] in tops;
      assert RatingOf(nodes, edges, dt, tops[i]) != RatingOf(nodes, edges, dt, tops[j]);
    }
  }

  lemma {:induction false} OneOfEach(ls: seq<Layer>, l: Layer)
    requires Different(ls)
    ensures multiset(ls)[l] <= 1
  {
    if ls != [] {
      var n := |ls| - 1;
      OneOfEach(ls[..n], l);
      assert ls == ls[..n] + [ls[n]];
    }
  }

  lemma TwoOfOne(ls: seq<Layer>, i: nat, j: nat)
    requires i < j < |ls| && ls[i] == ls[j]
    ensures multiset(ls)[ls[i]] >= 2
  {
    assert ls == ls[..j] + ([ls[j]] + ls[j + 1..]);
    assert ls[..j][i] == ls[i] && ls[i] in ls[..j];
  }

  lemma SortedStrictly(grouped: seq<Layer>, sorted: seq<Layer>)
    requires Ascending(sorted) && multiset(sorted) == multiset(grouped) && Different(grouped)
    ensures StrictlyAscending(sorted) && forall l :: l in sorted <==> l in grouped
  {
    forall l ensures l in sorted <==> l in grouped {
      assert l in multiset(sorted) <==> l in multiset(grouped);
    }
    forall i, j | 0 <= i < j < |sorted| ensures sorted[i].mergeRating < sorted[j].mergeRating {
      OneOfEach(grouped, sorted[i]);
      if sorted[i] == sorted[j] {
        TwoOfOne(sorted, i, j);
      } else {
        assert sorted[i] in sorted && sorted[j] in sorted;
        var k :| 0 <= k < |grouped| && grouped[k] == sorted[i];
        var m :| 0 <= m < |grouped| && grouped[m] == sorted[j];
      }
    }
  }

  /** Main result: when the ratings of the layers differ, before any merging, then the list of
      layers does not depend on the order in which the library lists children. */
  lemma OrderOfChildren(nodes: Nodes, edges: Edges, dt: DominatorTree, dt': DominatorTree, budget: int,
                        grouped: seq<Layer>, sorted: seq<Layer>, layers: seq<Layer>,
                        grouped': seq<Layer>, sorted': seq<Layer>, layers': seq<Layer>)
    requires dt.Valid(edges) && dt'.Valid(edges) && Covers(nodes, dt) && Covers(nodes, dt')
    requires RatingsDiffer(nodes, edges, dt)
    requires Ordered(nodes, edges, dt, grouped, sorted) && Fitted(sorted, budget, layers)
    requires Ordered(nodes, edges, dt', grouped', sorted') && Fitted(sorted', budget, layers')
    ensures layers == layers'
  {
    hide *;
    GroupedIsIdeal(nodes, edges, dt, grouped, sorted);
    GroupedIsIdeal(nodes, edges, dt', grouped', sorted');
    SameIdeal(nodes, edges, dt, dt');
    SortedStrictly(grouped, sorted);
    SortedStrictly(grouped', sorted');
    AscendingUnique(sorted, sorted');
    SameFitted(sorted, budget, layers, layers');
  }

  lemma SameFitted(sorted: seq<Layer>, budget: int, layers: seq<Layer>, layers': seq<Layer>)
    requires Fitted(sorted, budget, layers) && Fitted(sorted, budget, layers')
    ensures layers == layers'
  {
    hide Squeezed;
  }

  lemma SameIdeal(nodes: Nodes, edges: Edges, dt: DominatorTree, dt': DominatorTree)
    requires dt.Valid(edges) && dt'.Valid(edges) && Covers(nodes, dt) && Covers(nodes, dt')
    requires RatingsDiffer(nodes, edges, dt)
    ensures Different(Ideal(nodes, edges, dt)) && Different(Ideal(nodes, edges, dt'))
    ensures forall l :: l in Ideal(nodes, edges, dt) <==> l in Ideal(nodes, edges, dt')
  {
    TreeUnique(edges, dt.idom, dt'.idom);
    hide *;
    DifferTransfers(nodes, edges, dt, dt');
    IdealDifferent(nodes, edges, dt);
    IdealDifferent(nodes, edges, dt');
    forall l ensures l in Ideal(nodes, edges, dt) <==> l in Ideal(nodes, edges, dt') {
      HeadedIs(nodes, edges, dt, l);
      HeadedIs(nodes, edges, dt', l);
      HeadsTransfer(nodes, edges, dt, dt', l);
    }
  }

  ghost predicate Heads(nodes: Nodes, edges: Edges, dt: DominatorTree, l: Layer)
    requires Covers(nodes, dt)
  {
    exists r :: r in dt.idom && dt.idom[r] == ROOT && l == LayerOf(nodes, r, Dominated(edges, dt, r))
  }

  lemma SameDominated(edges: Edges, dt: DominatorTree, dt': DominatorTree, r: Node)
    requires dt.idom == dt'.idom
    ensures Dominated(edges, dt, r) == Dominated(edges, dt', r)
  {
    hide Dominates;
  }

  lemma HeadsTransfer(nodes: Nodes, edges: Edges, dt: DominatorTree, dt': DominatorTree, l: Layer)
    requires dt.idom == dt'.idom && Covers(nodes, dt) && Covers(nodes, dt')
    ensures Heads(nodes, edges, dt, l) <==> Heads(nodes, edges, dt', l)
  {
    forall r ensures Dominated(edges, dt, r) == Dominated(edges, dt', r) {
      SameDominated(edges, dt, dt', r);
    }
    hide LayerOf, Dominated;
  }

  lemma DifferTransfers(nodes: Nodes, edges: Edges, dt: DominatorTree, dt': DominatorTree)
    requires dt.idom == dt'.idom && Covers(nodes, dt) && Covers(nodes, dt') && RatingsDiffer(nodes, edges, dt)
    ensures RatingsDiffer(nodes, edges, dt')
  {
    forall r, t | Top(dt', r) && Top(dt', t) && r != t
      ensures RatingOf(nodes, edges, dt', r) != RatingOf(nodes, edges, dt', t)
    {
      assert Top(dt, r) && Top(dt, t);
      SameDominated(edges, dt, dt', r);
      SameDominated(edges, dt, dt', t);
      hide LayerOf, Dominated;
      assert RatingOf(nodes, edges, dt, r) != RatingOf(nodes, edges, dt, t);
    }
  }

  lemma GroupedIsIdeal(nodes: Nodes, edges: Edges, dt: DominatorTree, grouped: seq<Layer>, sorted: seq<Layer>)
    requires dt.Valid(edges) && Covers(nodes, dt) && Ordered(nodes, edges, dt, grouped, sorted)
    ensures grouped == Ideal(nodes, edges, dt) && multiset(sorted) == multiset(grouped) && Ascending(sorted)
  {
    hide LayerOf, Dominated;
  }

  // ---- From the references to the layers of the image

  /** The path is in the graph, and some path of edges leads to it from the top: references, or
      the edge from the top to a big or popular closure and then references. */
  ghost predicate InImage(refs: RuntimeGraph, edges: Edges, path: string) {
    exists i :: 0 <= i < |refs.graph| && Reachable(edges, i + 1) && refs.graph[i].path == path
  }

  lemma TreeCovered(refs: RuntimeGraph, pop: Popularity, nodes: Nodes, edges: Edges, dt: DominatorTree)
    requires Complete(refs) && NodesAre(refs, pop, nodes, |refs.graph|)
    requires EdgesWanted(refs, pop, edges) && dt.Valid(edges)
    ensures Covers(nodes, dt) && Distinct(nodes, dt.idom.Keys)
  {
    forall n | n in dt.idom
      ensures 1 <= n <= |refs.graph| && nodes[n] == ClosureOf(refs, pop, n - 1) && Latest(refs, n - 1, |refs.graph|)
    {
      assert Reachable(edges, n) && n != ROOT;
      var p :| Leads(edges, p, n);
      assert (p[|p| - 2], p[|p| - 1]) in edges;
      hide ClosureOf;
      assert Wanted(refs, pop, p[|p| - 2], n);
    }
    hide PopularityOf;
    forall n, m | n in dt.idom && m in dt.idom && nodes[n].path == nodes[m].path ensures n == m {
      OneLatest(refs, n - 1, m - 1);
    }
  }

  lemma OneLatest(refs: RuntimeGraph, i: nat, j: nat)
    requires Latest(refs, i, |refs.graph|) && Latest(refs, j, |refs.graph|) && refs.graph[i].path == refs.graph[j].path
    ensures i == j
  {}

  lemma SameImage(refs: RuntimeGraph, pop: Popularity, nodes: Nodes, edges: Edges, path: string)
    requires NodesAre(refs, pop, nodes, |refs.graph|)
    ensures InImage(refs, edges, path) <==> Reaches(nodes, edges, path)
  {
    hide PopularityOf, Reachable;
    if InImage(refs, edges, path) {
      var i :| 0 <= i < |refs.graph| && Reachable(edges, i + 1) && refs.graph[i].path == path;
      assert i + 1 in nodes && nodes[i + 1] == ClosureOf(refs, pop, i);
    }
    if n :| n in nodes && n != ROOT && Reachable(edges, n) && nodes[n].path == path {
      assert nodes[n] == ClosureOf(refs, pop, n - 1) && Reachable(edges, n - 1 + 1);
    }
  }

  ghost predicate HoldsImage(refs: RuntimeGraph, edges: Edges, paths: seq<string>) {
    forall path :: multiset(paths)[path] == if InImage(refs, edges, path) then 1 else 0
  }

  lemma LayersHoldImage(refs: RuntimeGraph, pop: Popularity, nodes: Nodes, edges: Edges, dt: DominatorTree,
                        grouped: seq<Layer>, sorted: seq<Layer>, budget: int, layers: seq<Layer>)
    requires Complete(refs) && NodesAre(refs, pop, nodes, |refs.graph|)
    requires EdgesWanted(refs, pop, edges) && dt.Valid(edges) && Covers(nodes, dt)
    requires Ordered(nodes, edges, dt, grouped, sorted) && Fitted(sorted, budget, layers)
    ensures HoldsImage(refs, edges, Flat(layers))
  {
    hide Complete, NodesAre, EdgesWanted, DominatorTree.Valid, Covers, Headed, Distinct, Flat, Squeezed, InImage,
      Reachable, DominatorTree.DominatedBy;
    TreeCovered(refs, pop, nodes, edges, dt);
    SameLayers(sorted, grouped);
    var k := if |sorted| <= budget then 0 else |sorted| - budget;
    NothingSqueezed(sorted);
    MergingConserves(sorted, k);
    forall path ensures multiset(Flat(layers))[path] == if InImage(refs, edges, path) then 1 else 0 {
      Partition(nodes, edges, dt, grouped, path);
      SameImage(refs, pop, nodes, edges, path);
    }
  }

  /** The nodes of the graph: the first `n` entries and the root. */
  ghost function NodesUpTo(refs: RuntimeGraph, pop: Popularity, n: nat): Nodes
    requires n <= |refs.graph|
  {
    if n == 0 then map[ROOT := IMAGE_ROOT]
    else NodesUpTo(refs, pop, n - 1)[n := ClosureOf(refs, pop, n - 1)]
  }

  lemma {:induction false} NodesUpToAre(refs: RuntimeGraph, pop: Popularity, n: nat)
    requires n <= |refs.graph|
    ensures NodesAre(refs, pop, NodesUpTo(refs, pop, n), n)
  {
    hide ClosureOf;
    if n > 0 {
      NodesUpToAre(refs, pop, n - 1);
    }
  }

  ghost function ImageNodes(refs: RuntimeGraph, pop: Popularity): Nodes {
    NodesUpTo(refs, pop, |refs.graph|)
  }

  lemma SameNodes(refs: RuntimeGraph, pop: Popularity, nodes: Nodes)
    requires NodesAre(refs, pop, nodes, |refs.graph|)
    ensures nodes == ImageNodes(refs, pop)
  {
    NodesUpToAre(refs, pop, |refs.graph|);
    hide ClosureOf, NodesUpTo;
  }

  /** The total of the layers' ratings, without any merging. */
  ghost function ImageRating(refs: RuntimeGraph, pop: Popularity, edges: Edges, dt: DominatorTree): nat
    requires Complete(refs) && EdgesWanted(refs, pop, edges) && dt.Valid(edges)
  {
    NodesUpToAre(refs, pop, |refs.graph|);
    TreeCovered(refs, pop, ImageNodes(refs, pop), edges, dt);
    Total(Ideal(ImageNodes(refs, pop), edges, dt))
  }

  /** The layers are those of the root's children, sorted and fitted into the budget. */
  ghost predicate IsGrouping(refs: RuntimeGraph, pop: Popularity, edges: Edges, dt: DominatorTree, budget: int, layers: seq<Layer>)
    requires Complete(refs) && EdgesWanted(refs, pop, edges) && dt.Valid(edges)
  {
    NodesUpToAre(refs, pop, |refs.graph|);
    TreeCovered(refs, pop, ImageNodes(refs, pop), edges, dt);
    exists grouped, sorted ::
      Ordered(ImageNodes(refs, pop), edges, dt, grouped, sorted) && Fitted(sorted, budget, layers)
  }

  /** Main result: so two images of the same closures have the same layers, in the same order, if
      the ratings of the layers differ before merging. */
  lemma SameImageLayers(refs: RuntimeGraph, pop: Popularity, edges: Edges, dt: DominatorTree, dt': DominatorTree,
                        budget: int, layers: seq<Layer>, layers': seq<Layer>)
    requires Complete(refs) && EdgesWanted(refs, pop, edges) && dt.Valid(edges) && dt'.Valid(edges)
    requires Covers(ImageNodes(refs, pop), dt) && RatingsDiffer(ImageNodes(refs, pop), edges, dt)
    requires IsGrouping(refs, pop, edges, dt, budget, layers) && IsGrouping(refs, pop, edges, dt', budget, layers')
    ensures layers == layers'
  {
    hide Complete, EdgesWanted, DominatorTree.Valid, Covers, RatingsDiffer, Ordered, Fitted, ImageNodes, NodesAre;
    var nodes := ImageNodes(refs, pop);
    assert NodesAre(refs, pop, nodes, |refs.graph|) by { ImageNodesAre(refs, pop); }
    TreeCovered(refs, pop, nodes, edges, dt');
    var g, s :| Ordered(nodes, edges, dt, g, s) && Fitted(s, budget, layers);
    var g', s' :| Ordered(nodes, edges, dt', g', s') && Fitted(s', budget, layers');
    OrderOfChildren(nodes, edges, dt, dt', budget, g, s, layers, g', s', layers');
  }

  lemma ImageNodesAre(refs: RuntimeGraph, pop: Popularity)
    ensures NodesAre(refs, pop, ImageNodes(refs, pop), |refs.graph|)
  {
    NodesUpToAre(refs, pop, |refs.graph|);
  }

  /** Main result, `GroupLayers`, given the dominator tree that the library finds for the graph:
      the image has no more layers than the budget and holds every closure in it exactly once,
      and merging has kept the total of the ratings modulo 2^64. */
  method GroupLayers(refs: RuntimeGraph, pop: Popularity, budget: int, dt: DominatorTree, ghost edges: Edges)
    returns (layers: seq<Layer>)
    requires Complete(refs) && EdgesWanted(refs, pop, edges) && dt.Valid(edges)
    requires budget >= 1 || |dt.DominatedBy(ROOT)| <= budget
    ensures |layers| <= budget && HoldsImage(refs, edges, Flat(layers))
    ensures Wrap(Total(layers)) == Wrap(ImageRating(refs, pop, edges, dt))
    ensures IsGrouping(refs, pop, edges, dt, budget, layers)
  {
    hide Complete, NodesAre, DominatorTree.Valid, Covers, Headed, Distinct, Flat, Squeezed, InImage,
      Reachable, DominatorTree.DominatedBy, HoldsImage, Ascending, EdgesWanted, Total, Wrap, Ideal, ImageNodes;
    var graph := BuildGraph(refs, pop);
    SameEdges(refs, pop, graph.edges, edges);
    SameNodes(refs, pop, graph.nodes);
    TreeCovered(refs, pop, graph.nodes, edges, dt);
    layers := Dominate(budget, graph.nodes, edges, dt);
    ghost var grouped, sorted :| Ordered(graph.nodes, edges, dt, grouped, sorted) && Fitted(sorted, budget, layers);
    LayersHoldImage(refs, pop, graph.nodes, edges, dt, grouped, sorted, budget, layers);
  }

  lemma SameEdges(refs: RuntimeGraph, pop: Popularity, a: Edges, b: Edges)
    requires EdgesWanted(refs, pop, a) && EdgesWanted(refs, pop, b)
    ensures a == b
  {
    hide Wanted;
    assert forall e :: e in a <==> Wanted(refs, pop, e.0, e.1);
    assert forall e :: e in b <==> Wanted(refs, pop, e.0, e.1);
  }
}
