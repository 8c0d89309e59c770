// Which layers make the list depend on the order of children: exactly those that tie.
module Ties {
  import opened Dominators
  import opened Layers
  import opened Grouping
  import opened Merging

  /** The list with the neighbours `i` and `i + 1` exchanged. */
  function Exchanged(ls: seq<Layer>, i: nat): seq<Layer>
    requires i + 1 < |ls|
  {
    ls[..i] + [ls[i + 1], ls[i]] + ls[i + 2..]
  }

  lemma Exchange(ls: seq<Layer>, i: nat)
    requires i + 1 < |ls| && Ascending(ls) && ls[i].mergeRating == ls[i + 1].mergeRating
    ensures Ascending(Exchanged(ls, i)) && multiset(Exchanged(ls, i)) == multiset(ls)
  {
    assert ls == ls[..i] + [ls[i], ls[i + 1]] + ls[i + 2..];
  }

  /** No layer is empty, and nothing is in two. */
  ghost predicate Apart(ls: seq<Layer>) {
    && (forall k :: 0 <= k < |ls| ==> ls[k].contents != [])
    && forall path :: multiset(Flat(ls))[path] <= 1
  }

  lemma Neighbours(ls: seq<Layer>, i: nat)
    requires i + 1 < |ls|
    ensures Flat(ls[..i + 2]) == Flat(ls[..i]) + ls[i].contents + ls[i + 1].contents
  {
    assert ls[..i] + [ls[i]] == ls[..i + 1] && ls[..i + 1] + [ls[i + 1]] == ls[..i + 2];
    SnocLayer(ls[..i], ls[i]);
    SnocLayer(ls[..i + 1], ls[i + 1]);
  }

  lemma FirstsDiffer(ls: seq<Layer>, i: nat)
    requires i + 1 < |ls| && Apart(ls)
    ensures ls[i].contents[0] != ls[i + 1].contents[0]
  {
    var (x, y) := (ls[i].contents, ls[i + 1].contents);
    Neighbours(ls, i);
    assert ls == ls[..i + 2] + ls[i + 2..];
    AppendLayers(ls[..i + 2], ls[i + 2..]);
    var (before, behind) := (Flat(ls[..i]), Flat(ls[i + 2..]));
    hide Flat;
    assert multiset(Flat(ls)) == multiset(before) + multiset(x) + multiset(y) + multiset(behind);
    assert x[0] in multiset(x) && y[0] in multiset(y);
    assert multiset(Flat(ls))[x[0]] <= 1;
  }

  /** Exchanged layers show in the list, wherever they end up. */
  lemma ExchangeShows(ls: seq<Layer>, i: nat, k: nat)
    requires i + 1 < |ls| && Apart(ls) && (k == 0 || k < |ls|)
    ensures Squeezed(ls, k) != Squeezed(Exchanged(ls, i), k)
  {
    FirstsDiffer(ls, i);
    var other := Exchanged(ls, i);
    if k == 0 {
      assert other[i] == ls[i + 1];
    } else if i < k {
      MergedShows(ls, i, k);
      hide Flat, Exchanged;
      assert Squeezed(ls, k)[0].contents != Squeezed(other, k)[0].contents;
    } else {
      var at := if i == k then k + 1 else i;
      assert Squeezed(ls, k)[at - k] == ls[at] && Squeezed(other, k)[at - k] == other[at];
      assert other[at] == if i == k then ls[i] else ls[i + 1];
    }
  }

  lemma MergedShows(ls: seq<Layer>, i: nat, k: nat)
    requires i < k < |ls| && ls[i].contents != [] && ls[i + 1].contents != []
    requires ls[i].contents[0] != ls[i + 1].contents[0]
    ensures Flat(ls[..k + 1]) != Flat(Exchanged(ls, i)[..k + 1])
  {
    var other := Exchanged(ls, i);
    var n := |Flat(ls[..i])|;
    StartsWith(ls, i, k);
    StartsWith(other, i, k);
    assert other[..i] == ls[..i] && other[i] == ls[i + 1];
    hide Flat;
    assert Flat(ls[..k + 1])[n] == ls[i].contents[0];
    assert Flat(other[..k + 1])[n] == ls[i + 1].contents[0];
  }

  lemma StartsWith(ls: seq<Layer>, i: nat, k: nat)
    requires i < k < |ls| && ls[i].contents != []
    ensures var (all, n) := (Flat(ls[..k + 1]), |Flat(ls[..i])|); n < |all| && all[n] == ls[i].contents[0]
  {
    assert ls[..i] + [ls[i]] == ls[..i + 1] && ls[..i + 1] + ls[i + 1..k + 1] == ls[..k + 1];
    SnocLayer(ls[..i], ls[i]);
    AppendLayers(ls[..i + 1], ls[i + 1..k + 1]);
  }

  // ---- The layers of the root's children

  lemma NoneEmpty(nodes: Nodes, edges: Edges, dt: DominatorTree, grouped: seq<Layer>)
    requires dt.Valid(edges) && Covers(nodes, dt) && Distinct(nodes, dt.idom.Keys)
    requires Headed(nodes, edges, dt, dt.DominatedBy(ROOT), grouped)
    ensures forall l :: l in grouped ==> l.contents != []
  {
    var tops := dt.DominatedBy(ROOT);
    forall l | l in grouped ensures l.contents != [] {
      var k :| 0 <= k < |grouped| && grouped[k] == l;
      HeadInside(nodes, edges, dt, tops[k]);
    }
  }

  lemma HeadInside(nodes: Nodes, edges: Edges, dt: DominatorTree, r: Node)
    requires Covers(nodes, dt) && Distinct(nodes, dt.idom.Keys) && r in dt.idom
    ensures LayerOf(nodes, r, Dominated(edges, dt, r)).contents != []
  {
    var s := Dominated(edges, dt, r);
    assert r in s;
    LayerHoldsEachOnce(nodes, r, s, nodes[r].path);
    hide LayerOf;
    assert HasPath(nodes, s, nodes[r].path);
  }

  lemma SortedApart(nodes: Nodes, edges: Edges, dt: DominatorTree, grouped: seq<Layer>, sorted: seq<Layer>)
    requires dt.Valid(edges) && Covers(nodes, dt) && Distinct(nodes, dt.idom.Keys)
    requires Ordered(nodes, edges, dt, grouped, sorted)
    ensures Apart(sorted)
  {
    hide DominatorTree.Valid, DominatorTree.DominatedBy, Headed, Distinct, Flat, Reaches;
    NoneEmpty(nodes, edges, dt, grouped);
    SameLayers(sorted, grouped);
    forall path ensures multiset(Flat(sorted))[path] <= 1 {
      Partition(nodes, edges, dt, grouped, path);
    }
    forall k | 0 <= k < |sorted| ensures sorted[k].contents != [] {
      assert sorted[k] in multiset(grouped);
    }
  }

  /** Distinct ratings are distinct in every arrangement. */
  lemma DifferentStays(a: seq<Layer>, b: seq<Layer>)
    requires Different(a) && multiset(a) == multiset(b)
    ensures Different(b)
  {
    forall i, j | 0 <= i < j < |b| ensures b[i].mergeRating != b[j].mergeRating {
      OneOfEach(a, b[i]);
      if b[i] == b[j] {
        TwoOfOne(b, i, j);
      } else {
        assert b[i] in multiset(a) && b[j] in multiset(a);
        var k :| 0 <= k < |a| && a[k] == b[i];
        var m :| 0 <= m < |a| && a[m] == b[j];
      }
    }
  }

  lemma DifferentTops(nodes: Nodes, edges: Edges, dt: DominatorTree, grouped: seq<Layer>)
    requires dt.Valid(edges) && Covers(nodes, dt)
    requires Headed(nodes, edges, dt, dt.DominatedBy(ROOT), grouped) && Different(grouped)
    ensures RatingsDiffer(nodes, edges, dt)
  {
    var tops := dt.DominatedBy(ROOT);
    hide LayerOf, Dominated, IsTree;
    forall r, t | Top(dt, r) && Top(dt, t) && r != t
      ensures RatingOf(nodes, edges, dt, r) != RatingOf(nodes, edges, dt, t)
    {
      assert r in tops && t in tops;
      var k :| 0 <= k < |tops| && tops[k] == r;
      var m :| 0 <= m < |tops| && tops[m] == t;
      assert grouped[k].mergeRating != grouped[m].mergeRating;
    }
  }

  ghost function Merges(sorted: seq<Layer>, budget: int): nat {
    if |sorted| <= budget then 0 else |sorted| - budget
  }

  lemma FittedIs(sorted: seq<Layer>, budget: int)
    requires budget >= 1 || |sorted| <= budget
    ensures var k := Merges(sorted, budget); (k == 0 || k < |sorted|) && Fitted(sorted, budget, Squeezed(sorted, k))
  {
    NothingSqueezed(sorted);
  }

  /** A list of layers that can come out, whatever the order of children and of layers that tie. */
  ghost predicate Outcome(nodes: Nodes, edges: Edges, budget: int, layers: seq<Layer>) {
    exists dt: DominatorTree, grouped, sorted ::
      && dt.Valid(edges) && Covers(nodes, dt)
      && Ordered(nodes, edges, dt, grouped, sorted) && Fitted(sorted, budget, layers)
  }

  ghost predicate OneOutcome(nodes: Nodes, edges: Edges, budget: int) {
    forall a, b :: Outcome(nodes, edges, budget, a) && Outcome(nodes, edges, budget, b) ==> a == b
  }

  lemma IsOutcome(nodes: Nodes, edges: Edges, dt: DominatorTree, grouped: seq<Layer>, sorted: seq<Layer>, budget: int,
                  layers: seq<Layer>)
    requires dt.Valid(edges) && Covers(nodes, dt)
    requires Ordered(nodes, edges, dt, grouped, sorted) && Fitted(sorted, budget, layers)
    ensures Outcome(nodes, edges, budget, layers)
  {}

  lemma AlsoOrdered(nodes: Nodes, edges: Edges, dt: DominatorTree, grouped: seq<Layer>, sorted: seq<Layer>,
                    other: seq<Layer>)
    requires Covers(nodes, dt) && Ordered(nodes, edges, dt, grouped, sorted)
    requires Ascending(other) && multiset(other) == multiset(sorted)
    ensures Ordered(nodes, edges, dt, grouped, other)
  {
    hide Headed, Ascending;
  }

  lemma TieShows(nodes: Nodes, edges: Edges, dt: DominatorTree, grouped: seq<Layer>, sorted: seq<Layer>, budget: int, i: nat)
    requires dt.Valid(edges) && Covers(nodes, dt) && Distinct(nodes, dt.idom.Keys)
    requires Ordered(nodes, edges, dt, grouped, sorted)
    requires budget >= 1 || |sorted| <= budget
    requires i + 1 < |sorted| && sorted[i].mergeRating == sorted[i + 1].mergeRating
    ensures !OneOutcome(nodes, edges, budget)
  {
    assert Ascending(sorted);
    hide *;
    SortedApart(nodes, edges, dt, grouped, sorted);
    Exchange(sorted, i);
    var (other, k) := (Exchanged(sorted, i), Merges(sorted, budget));
    SameLength(sorted, other, budget);
    FittedIs(sorted, budget);
    FittedIs(other, budget);
    ExchangeShows(sorted, i, k);
    AlsoOrdered(nodes, edges, dt, grouped, sorted, other);
    IsOutcome(nodes, edges, dt, grouped, sorted, budget, Squeezed(sorted, k));
    IsOutcome(nodes, edges, dt, grouped, other, budget, Squeezed(other, k));
    TwoOutcomes(nodes, edges, budget, Squeezed(sorted, k), Squeezed(other, k));
  }

  lemma SameLength(a: seq<Layer>, b: seq<Layer>, budget: int)
    requires multiset(a) == multiset(b)
    ensures |a| == |b| && Merges(a, budget) == Merges(b, budget)
  {
    assert |multiset(a)| == |multiset(b)|;
  }

  lemma TwoOutcomes(nodes: Nodes, edges: Edges, budget: int, a: seq<Layer>, b: seq<Layer>)
    requires Outcome(nodes, edges, budget, a) && Outcome(nodes, edges, budget, b) && a != b
    ensures !OneOutcome(nodes, edges, budget)
  {
    hide Outcome;
  }

  /** Main result: exactly one list of layers can come out if and only if the ratings of the layers
      all differ before merging. Two that tie show in every list, even merged into one layer,
      whose contents are not sorted again. */
  lemma OneOutcomeExactly(nodes: Nodes, edges: Edges, dt: DominatorTree, budget: int)
    requires dt.Valid(edges) && Covers(nodes, dt) && Distinct(nodes, dt.idom.Keys)
    requires budget >= 1 || |dt.DominatedBy(ROOT)| <= budget
    ensures RatingsDiffer(nodes, edges, dt) <==> OneOutcome(nodes, edges, budget)
  {
    hide DominatorTree.Valid, Covers, Distinct, Fitted, Headed, DominatorTree.DominatedBy, RatingsDiffer;
    if RatingsDiffer(nodes, edges, dt) {
      forall a, b | Outcome(nodes, edges, budget, a) && Outcome(nodes, edges, budget, b) ensures a == b {
        DifferingOutcome(nodes, edges, dt, budget, a, b);
      }
    }
    if OneOutcome(nodes, edges, budget) {
      OutcomeDiffers(nodes, edges, dt, budget);
    }
  }

  lemma DifferingOutcome(nodes: Nodes, edges: Edges, dt: DominatorTree, budget: int, a: seq<Layer>, b: seq<Layer>)
    requires dt.Valid(edges) && Covers(nodes, dt) && RatingsDiffer(nodes, edges, dt)
    requires Outcome(nodes, edges, budget, a) && Outcome(nodes, edges, budget, b)
    ensures a == b
  {
    hide DominatorTree.Valid, Covers, Ordered, Fitted, RatingsDiffer;
    var dt1: DominatorTree, g1, s1 :| dt1.Valid(edges) && Covers(nodes, dt1)
      && Ordered(nodes, edges, dt1, g1, s1) && Fitted(s1, budget, a);
    var dt2: DominatorTree, g2, s2 :| dt2.Valid(edges) && Covers(nodes, dt2)
      && Ordered(nodes, edges, dt2, g2, s2) && Fitted(s2, budget, b);
    SameIdom(edges, dt, dt1);
    DifferTransfers(nodes, edges, dt, dt1);
    OrderOfChildren(nodes, edges, dt1, dt2, budget, g1, s1, a, g2, s2, b);
  }

  lemma SameIdom(edges: Edges, dt: DominatorTree, dt': DominatorTree)
    requires dt.Valid(edges) && dt'.Valid(edges)
    ensures dt.idom == dt'.idom
  {
    TreeUnique(edges, dt.idom, dt'.idom);
  }

  lemma OutcomeDiffers(nodes: Nodes, edges: Edges, dt: DominatorTree, budget: int)
    requires dt.Valid(edges) && Covers(nodes, dt) && Distinct(nodes, dt.idom.Keys)
    requires budget >= 1 || |dt.DominatedBy(ROOT)| <= budget
    requires OneOutcome(nodes, edges, budget)
    ensures RatingsDiffer(nodes, edges, dt)
  {
    hide DominatorTree.Valid, Covers, Distinct, Fitted, Headed, DominatorTree.DominatedBy, RatingsDiffer, OneOutcome,
      Outcome, Ideal, SortByRating, Different;
    var grouped := Ideal(nodes, edges, dt);
    var sorted := SortByRating(grouped);
    SortOrders(nodes, edges, dt, grouped);
    if i :| 0 <= i && i + 1 < |sorted| && sorted[i].mergeRating == sorted[i + 1].mergeRating {
      TieShows(nodes, edges, dt, grouped, sorted, budget, i);
    } else {
      assert Ascending(sorted) && multiset(sorted) == multiset(grouped);
      NeighboursDiffer(sorted);
      DifferentStays(sorted, grouped);
      DifferentTops(nodes, edges, dt, grouped);
    }
  }

  lemma NeighboursDiffer(sorted: seq<Layer>)
    requires Ascending(sorted)
    requires forall i :: 0 <= i && i + 1 < |sorted| ==> sorted[i].mergeRating != sorted[i + 1].mergeRating
    ensures Different(sorted)
  {
    forall i, j | 0 <= i < j < |sorted| ensures sorted[i].mergeRating != sorted[j].mergeRating {
      assert sorted[i].mergeRating <= sorted[i + 1].mergeRating;
      assert sorted[i + 1].mergeRating <= sorted[j].mergeRating;
    }
  }

  /** The same for a whole image. */
  lemma OneGroupingExactly(refs: RuntimeGraph, pop: Popularity, edges: Edges, dt: DominatorTree, budget: int)
    requires Complete(refs) && EdgesWanted(refs, pop, edges) && dt.Valid(edges)
    requires budget >= 1 || |dt.DominatedBy(ROOT)| <= budget
    ensures Covers(ImageNodes(refs, pop), dt)
    ensures RatingsDiffer(ImageNodes(refs, pop), edges, dt)
      <==> forall a, b :: CanBeGrouped(refs, pop, edges, budget, a) && CanBeGrouped(refs, pop, edges, budget, b) ==> a == b
  {
    hide Complete, EdgesWanted, DominatorTree.Valid, DominatorTree.DominatedBy, Covers, RatingsDiffer, Ordered, Fitted,
      ImageNodes, NodesAre, Distinct;
    var nodes := ImageNodes(refs, pop);
    ImageNodesAre(refs, pop);
    TreeCovered(refs, pop, nodes, edges, dt);
    OneOutcomeExactly(nodes, edges, dt, budget);
    forall layers ensures CanBeGrouped(refs, pop, edges, budget, layers) <==> Outcome(nodes, edges, budget, layers) {
      GroupedIsOutcome(refs, pop, edges, budget, layers);
    }
    hide Outcome, CanBeGrouped;
  }

  lemma GroupedIsOutcome(refs: RuntimeGraph, pop: Popularity, edges: Edges, budget: int, layers: seq<Layer>)
    requires Complete(refs) && EdgesWanted(refs, pop, edges)
    ensures CanBeGrouped(refs, pop, edges, budget, layers) <==> Outcome(ImageNodes(refs, pop), edges, budget, layers)
  {
    hide Complete, EdgesWanted, DominatorTree.Valid, Covers, Ordered, Fitted, ImageNodes, NodesAre, Distinct;
    var nodes := ImageNodes(refs, pop);
    if CanBeGrouped(refs, pop, edges, budget, layers) {
      var t: DominatorTree :| t.Valid(edges) && IsGrouping(refs, pop, edges, t, budget, layers);
      ImageNodesAre(refs, pop);
      TreeCovered(refs, pop, nodes, edges, t);
      var g, s :| Ordered(nodes, edges, t, g, s) && Fitted(s, budget, layers);
    }
    if Outcome(nodes, edges, budget, layers) {
      var t: DominatorTree, g, s :| t.Valid(edges) && Covers(nodes, t)
        && Ordered(nodes, edges, t, g, s) && Fitted(s, budget, layers);
      assert IsGrouping(refs, pop, edges, t, budget, layers);
    }
  }

  /** Some order of the children, and of the layers that tie, gives these layers. */
  ghost predicate CanBeGrouped(refs: RuntimeGraph, pop: Popularity, edges: Edges, budget: int, layers: seq<Layer>)
    requires Complete(refs) && EdgesWanted(refs, pop, edges)
  {
    exists dt: DominatorTree :: dt.Valid(edges) && IsGrouping(refs, pop, edges, dt, budget, layers)
  }
}
