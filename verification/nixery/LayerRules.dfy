// The numbers and names behind the layers, told by store paths, sizes and popularities.
module LayerRules {
  import opened Dominators
  import opened Layers
  import opened Grouping
  import opened Merging

  // ---- Names and popularity

  /** The hash is lower-case letters and digits. */
  ghost predicate IsHash(s: string) {
    s != "" && forall i :: 0 <= i < |s| ==> 'a' <= s[i] <= 'z' || '0' <= s[i] <= '9'
  }

  ghost predicate StorePath(path: string, hash: string, name: string) {
    IsHash(hash) && path == "/nix/store/" + hash + "-" + name
  }

  lemma {:induction false} HashLengthIs(hash: string, rest: string)
    requires forall i :: 0 <= i < |hash| ==> 'a' <= hash[i] <= 'z' || '0' <= hash[i] <= '9'
    requires rest != "" ==> rest[0] == '-'
    ensures HashLength(hash + rest) == |hash|
  {
    if hash == "" {
      assert hash + rest == rest;
    } else {
      assert (hash + rest)[1..] == hash[1..] + rest;
      HashLengthIs(hash[1..], rest);
    }
  }

  lemma {:induction false} HashLengthRun(s: string)
    ensures forall i :: 0 <= i < HashLength(s) ==> 'a' <= s[i] <= 'z' || '0' <= s[i] <= '9'
  {
    if HashLength(s) > 0 {
      HashLengthRun(s[1..]);
    }
  }

  /** The name is what stands behind the store directory and the hash; what is no store path is
      its own name. */
  lemma PackageIs(path: string, hash: string, name: string)
    ensures StorePath(path, hash, name) ==> PackageFromPath(path) == name
    ensures (forall h, n :: !StorePath(path, h, n)) ==> PackageFromPath(path) == path
  {
    var store := "/nix/store/";
    if StorePath(path, hash, name) {
      assert path == store + (hash + ("-" + name));
      assert path[..|store|] == store && path[|store|..] == hash + ("-" + name);
      HashLengthIs(hash, "-" + name);
      assert (hash + ("-" + name))[|hash|] == '-' && (hash + ("-" + name))[|hash| + 1..] == name;
    } else if store <= path {
      var rest := path[|store|..];
      var n := HashLength(rest);
      HashLengthRun(rest);
      if 0 < n < |rest| && rest[n] == '-' {
        assert path == store + rest[..n] + "-" + rest[n + 1..];
        assert StorePath(path, rest[..n], rest[n + 1..]);
      }
    }
  }

  /** The two packages that are in every image are the most popular; what has no popularity has 1. */
  lemma PopularityIs(path: string, hash: string, name: string, pop: Popularity)
    requires StorePath(path, hash, name)
    ensures PopularityOf(path, pop) ==
      if "nss-cacert" <= name || "iana-etc" <= name then 500000 else if name in pop then pop[name] else 1
  {
    PackageIs(path, hash, name);
  }

  // ---- Heads of layers

  /** Whether entry `i` is big or popular, told by the input. */
  ghost predicate Outstanding(refs: RuntimeGraph, pop: Popularity, i: nat, name: string)
    requires i < |refs.graph|
  {
    || refs.graph[i].size > 100000000
    || "nss-cacert" <= name || "iana-etc" <= name
    || (name in pop && pop[name] >= 100)
  }

  lemma OutstandingIs(refs: RuntimeGraph, pop: Popularity, i: nat, hash: string, name: string)
    requires i < |refs.graph| && StorePath(refs.graph[i].path, hash, name)
    ensures ClosureOf(refs, pop, i).BigOrPopular() <==> Outstanding(refs, pop, i, name)
  {
    PopularityIs(refs.graph[i].path, hash, name, pop);
    hide PopularityOf, StorePath;
  }

  /** Main result: closures above 100 MB, of popularity 100 or more, or of the two packages in every
      image head a layer of their own. */
  lemma OutstandingHeads(refs: RuntimeGraph, pop: Popularity, edges: Edges, dt: DominatorTree, i: nat, hash: string, name: string)
    requires Complete(refs) && EdgesWanted(refs, pop, edges) && dt.Valid(edges)
    requires Latest(refs, i, |refs.graph|) && StorePath(refs.graph[i].path, hash, name)
    requires Outstanding(refs, pop, i, name)
    ensures i + 1 in dt.DominatedBy(ROOT)
  {
    OutstandingIs(refs, pop, i, hash, name);
    hide *;
    BigOrPopularHeads(refs, pop, edges, dt, i);
  }

  /** The edges of the graph, told by the input alone: the image leads to what it lists and to what
      is big or popular, and a closure to its references, but not to itself. */
  lemma EdgesAre(refs: RuntimeGraph, pop: Popularity, edges: Edges, i: nat, j: nat, hash: string, name: string)
    requires Complete(refs) && EdgesWanted(refs, pop, edges)
    requires Latest(refs, i, |refs.graph|) && Latest(refs, j, |refs.graph|) && StorePath(refs.graph[j].path, hash, name)
    ensures (0, j + 1) in edges <==> refs.graph[j].path in refs.references || Outstanding(refs, pop, j, name)
    ensures (i + 1, j + 1) in edges <==> refs.graph[j].path in refs.graph[i].refs && i != j
  {
    OutstandingIs(refs, pop, j, hash, name);
    hide PopularityOf, StorePath, Outstanding, Closure.BigOrPopular;
    assert (ROOT, j + 1) in edges <==> Wanted(refs, pop, ROOT, j + 1);
    assert (i + 1, j + 1) in edges <==> Wanted(refs, pop, i + 1, j + 1);
    if refs.graph[i].path == refs.graph[j].path {
      OneLatest(refs, i, j);
    }
  }

  // ---- The order of layers

  /** What the layer that `r` heads is worth, without overflow. */
  ghost function Worth(nodes: Nodes, edges: Edges, dt: DominatorTree, r: Node): int
    requires Covers(nodes, dt) && r in dt.idom
  {
    nodes[r].popularity * TotalSize(nodes, Dominated(edges, dt, r))
  }

  ghost predicate NothingOverflows(nodes: Nodes, edges: Edges, dt: DominatorTree)
    requires Covers(nodes, dt)
  {
    forall r :: r in dt.idom ==> 0 <= Worth(nodes, edges, dt, r) < 0x1_0000_0000_0000_0000
  }

  lemma WorthBounded(nodes: Nodes, edges: Edges, dt: DominatorTree, r: Node)
    requires Covers(nodes, dt) && NothingOverflows(nodes, edges, dt) && r in dt.idom
    ensures 0 <= Worth(nodes, edges, dt, r) < 0x1_0000_0000_0000_0000
  {
    hide Worth;
  }

  lemma WorthWraps(nodes: Nodes, edges: Edges, dt: DominatorTree, r: Node)
    requires Covers(nodes, dt) && r in dt.idom
    ensures LayerOf(nodes, r, Dominated(edges, dt, r)).mergeRating == Worth(nodes, edges, dt, r) % 0x1_0000_0000_0000_0000
  {
    DominatedInNodes(nodes, edges, dt, r);
    RatingIs(nodes, r, Dominated(edges, dt, r));
    hide LayerOf, TotalSize, Dominated;
  }

  lemma HeadWorth(nodes: Nodes, edges: Edges, dt: DominatorTree, r: Node)
    requires Covers(nodes, dt) && NothingOverflows(nodes, edges, dt) && r in dt.idom
    ensures LayerOf(nodes, r, Dominated(edges, dt, r)).mergeRating == Worth(nodes, edges, dt, r)
  {
    DominatedInNodes(nodes, edges, dt, r);
    hide LayerOf, TotalSize, Dominated, Worth, NothingOverflows;
    WorthBounded(nodes, edges, dt, r);
    WorthWraps(nodes, edges, dt, r);
  }

  /** The same layers in another order have the same heads in another order. */
  lemma {:induction false} HeadsFollow(nodes: Nodes, edges: Edges, dt: DominatorTree, tops: seq<Node>,
                                       grouped: seq<Layer>, sorted: seq<Layer>) returns (order: seq<Node>)
    requires Covers(nodes, dt) && Headed(nodes, edges, dt, tops, grouped) && multiset(sorted) == multiset(grouped)
    ensures Headed(nodes, edges, dt, order, sorted) && multiset(order) == multiset(tops)
    decreases |sorted|
  {
    hide LayerOf, Dominated;
    assert |multiset(sorted)| == |multiset(grouped)|;
    if sorted == [] {
      order := [];
    } else {
      assert sorted[0] in multiset(grouped);
      var j :| 0 <= j < |grouped| && grouped[j] == sorted[0];
      var rest := HeadsWithout(nodes, edges, dt, tops, grouped, sorted, j);
      order := [tops[j]] + rest;
      FirstIsBack(tops, rest, j);
      AssembleHeads(nodes, edges, dt, tops[j], rest, sorted);
    }
  }

  lemma {:induction false} HeadsWithout(nodes: Nodes, edges: Edges, dt: DominatorTree, tops: seq<Node>,
                                        grouped: seq<Layer>, sorted: seq<Layer>, j: nat) returns (rest: seq<Node>)
    requires Covers(nodes, dt) && Headed(nodes, edges, dt, tops, grouped) && multiset(sorted) == multiset(grouped)
    requires sorted != [] && j < |grouped| && grouped[j] == sorted[0]
    ensures Headed(nodes, edges, dt, rest, sorted[1..]) && multiset(rest) == multiset(Without(tops, j))
    decreases |sorted|, 0
  {
    hide LayerOf, Dominates;
    var fewer := Fewer(grouped, j);
    var heads := Without(tops, j);
    FewerSame(sorted, 0, grouped, j);
    assert Fewer(sorted, 0) == sorted[1..];
    forall k | 0 <= k < |heads|
      ensures heads[k] in dt.idom && fewer[k] == LayerOf(nodes, heads[k], Dominated(edges, dt, heads[k]))
    {
      var at := if k < j then k else k + 1;
      assert heads[k] == tops[at] && fewer[k] == grouped[at];
    }
    rest := HeadsFollow(nodes, edges, dt, heads, fewer, sorted[1..]);
  }

  lemma FirstIsBack(tops: seq<Node>, rest: seq<Node>, j: nat)
    requires j < |tops| && multiset(rest) == multiset(Without(tops, j))
    ensures multiset([tops[j]] + rest) == multiset(tops)
  {
    assert tops == tops[..j] + [tops[j]] + tops[j + 1..];
  }

  lemma AssembleHeads(nodes: Nodes, edges: Edges, dt: DominatorTree, r: Node, rest: seq<Node>, sorted: seq<Layer>)
    requires Covers(nodes, dt) && sorted != [] && r in dt.idom && sorted[0] == LayerOf(nodes, r, Dominated(edges, dt, r))
    requires Headed(nodes, edges, dt, rest, sorted[1..])
    ensures Headed(nodes, edges, dt, [r] + rest, sorted)
  {
    hide LayerOf, Dominates;
    var order := [r] + rest;
    forall k | 0 <= k < |order|
      ensures order[k] in dt.idom && sorted[k] == LayerOf(nodes, order[k], Dominated(edges, dt, order[k]))
    {
      if k > 0 {
        assert order[k] == rest[k - 1] && sorted[k] == sorted[1..][k - 1];
      }
    }
  }

  /** Main result: where nothing overflows, the layers are merged in the order of popularity times
      total size of what their heads dominate. */
  lemma ByPopularityTimesSize(nodes: Nodes, edges: Edges, dt: DominatorTree, grouped: seq<Layer>, sorted: seq<Layer>)
    returns (order: seq<Node>)
    requires Covers(nodes, dt) && NothingOverflows(nodes, edges, dt) && Ordered(nodes, edges, dt, grouped, sorted)
    ensures multiset(order) == multiset(dt.DominatedBy(ROOT)) && Headed(nodes, edges, dt, order, sorted)
    ensures forall i, j :: 0 <= i < j < |order| ==> Worth(nodes, edges, dt, order[i]) <= Worth(nodes, edges, dt, order[j])
  {
    order := HeadsFollow(nodes, edges, dt, dt.DominatedBy(ROOT), grouped, sorted);
    hide LayerOf, Dominated, NothingOverflows, Worth;
    forall i, j | 0 <= i < j < |order| ensures Worth(nodes, edges, dt, order[i]) <= Worth(nodes, edges, dt, order[j]) {
      HeadWorth(nodes, edges, dt, order[i]);
      HeadWorth(nodes, edges, dt, order[j]);
      assert sorted[i].mergeRating <= sorted[j].mergeRating;
    }
  }
}
