// Grouping the closures of an image into layers.
module Layers {
  import opened Dominators

  const U64: nat := 0x1_0000_0000_0000_0000

  /** The arithmetic of `uint64`. */
  function Wrap(n: int): (r: nat)
    ensures r < U64
  {
    n % U64
  }

  datatype RuntimeNode = RuntimeNode(size: nat, path: string, refs: seq<string>)

  datatype RuntimeGraph = RuntimeGraph(references: seq<string>, graph: seq<RuntimeNode>)

  type Popularity = map<string, int>

  datatype Layer = Layer(contents: seq<string>, mergeRating: nat) {
    /** `merge` */
    function Merge(b: Layer): Layer {
      Layer(contents + b.contents, Wrap(mergeRating + b.mergeRating))
    }
  }

  datatype Closure = Closure(graphId: Node, path: string, size: nat, refs: seq<string>, popularity: int) {
    /** `bigOrPopular` */
    predicate BigOrPopular() {
      size > 100 * 1000000 || popularity >= 100
    }
  }

  /** The length of the run of lower-case letters and digits at the front. */
  function HashLength(s: string): (n: nat)
    ensures n <= |s|
  {
    if s != "" && ('a' <= s[0] <= 'z' || '0' <= s[0] <= '9') then 1 + HashLength(s[1..]) else 0
  }

  /** `PackageFromPath`: without the store directory and the hash. */
  function PackageFromPath(path: string): string {
    var store := "/nix/store/";
    if store <= path then
      var rest := path[|store|..];
      var n := HashLength(rest);
      if 0 < n < |rest| && rest[n] == '-' then rest[n + 1..] else path
    else path
  }

  function PopularityOf(path: string, pop: Popularity): int {
    var id := PackageFromPath(path);
    if "nss-cacert" <= id || "iana-etc" <= id then 500000
    else if id in pop then pop[id]
    else 1
  }

  /** The closure that is made of entry `i`; 0 is the number of the root. */
  function ClosureOf(refs: RuntimeGraph, pop: Popularity, i: nat): Closure
    requires i < |refs.graph|
  {
    var c := refs.graph[i];
    Closure(i + 1, c.path, c.size, c.refs, PopularityOf(c.path, pop))
  }

  /** What the code demands of its input: everything that is referenced is there. */
  ghost predicate Complete(refs: RuntimeGraph) {
    && (forall p :: p in refs.references ==> Listed(refs, p))
    && (forall i, p :: 0 <= i < |refs.graph| && p in refs.graph[i].refs ==> Listed(refs, p))
    && (forall i :: 0 <= i < |refs.graph| ==> refs.graph[i].size < U64)
  }

  ghost predicate Listed(refs: RuntimeGraph, p: string) {
    exists i :: 0 <= i < |refs.graph| && refs.graph[i].path == p
  }

  /** Entry `i` is the last of the first `n` for its path. Of several entries for one path, the
      last is what the path stands for. */
  ghost predicate Latest(refs: RuntimeGraph, i: nat, n: nat)
    requires n <= |refs.graph|
  {
    i < n && forall j :: i < j < n ==> refs.graph[j].path != refs.graph[i].path
  }

  lemma {:induction false} HasLatest(refs: RuntimeGraph, i: nat, n: nat) returns (j: nat)
    requires i < n <= |refs.graph|
    ensures Latest(refs, j, n) && refs.graph[j].path == refs.graph[i].path
    decreases n - i
  {
    if k: nat :| i < k < n && refs.graph[k].path == refs.graph[i].path {
      j := HasLatest(refs, k, n);
    } else {
      j := i;
    }
  }

  /** The edges of the graph. */
  ghost predicate Wanted(refs: RuntimeGraph, pop: Popularity, a: Node, b: Node) {
    && 1 <= b <= |refs.graph| && Latest(refs, b - 1, |refs.graph|)
    && var c := ClosureOf(refs, pop, b - 1);
       if a == ROOT then c.path in refs.references || c.BigOrPopular()
       else
         && a <= |refs.graph| && Latest(refs, a - 1, |refs.graph|)
         && c.path in refs.graph[a - 1].refs && c.path != refs.graph[a - 1].path
  }

  class DirectedGraph {
    var nodes: map<Node, Closure>
    var edges: Edges

    constructor ()
      ensures nodes == map[] && edges == {}
    {
      nodes, edges := map[], {};
    }

    method AddNode(c: Closure)
      modifies this`nodes
      ensures nodes == old(nodes)[c.graphId := c]
    {
      nodes := nodes[c.graphId := c];
    }

    method SetEdge(a: Node, b: Node)
      modifies this`edges
      ensures edges == old(edges) + {(a, b)}
    {
      edges := edges + {(a, b)};
    }
  }

  ghost function NodeEdges(cmap: map<string, Closure>, node: Closure): Edges
    requires forall p :: p in node.refs ==> p in cmap
  {
    (if node.BigOrPopular() then {(ROOT, node.graphId)} else {})
    + (set p | p in node.refs && p != node.path :: (node.graphId, cmap[p].graphId))
  }

  /** `insertEdges` */
  method InsertEdges(graph: DirectedGraph, cmap: map<string, Closure>, node: Closure)
    requires forall p :: p in node.refs ==> p in cmap
    modifies graph`edges
    ensures graph.edges == old(graph.edges) + NodeEdges(cmap, node)
  {
    if node.BigOrPopular() && (ROOT, node.graphId) !in graph.edges {
      graph.SetEdge(ROOT, node.graphId);
    }
    ghost var before := graph.edges;
    for k := 0 to |node.refs|
      invariant graph.edges == before + set p | p in node.refs[..k] && p != node.path :: (node.graphId, cmap[p].graphId)
    {
      var c := node.refs[k];
      assert node.refs[..k + 1] == node.refs[..k] + [c];
      if c != node.path {
        graph.SetEdge(node.graphId, cmap[c].graphId);
      }
    }
    assert node.refs[..|node.refs|] == node.refs;
  }

  const IMAGE_ROOT: Closure := Closure(ROOT, "image_root", 0, [], 0)

  /** The nodes of the graph for the first `n` entries. */
  ghost predicate NodesAre(refs: RuntimeGraph, pop: Popularity, nodes: map<Node, Closure>, n: nat)
    requires n <= |refs.graph|
  {
    && (forall k :: k in nodes <==> 0 <= k <= n)
    && nodes[ROOT] == Closure(0, "image_root", 0, [], 0)
    && forall k :: 1 <= k <= n ==> nodes[k] == ClosureOf(refs, pop, k - 1)
  }

  ghost predicate ListedBefore(refs: RuntimeGraph, p: string, n: nat)
    requires n <= |refs.graph|
  {
    exists i :: 0 <= i < n && refs.graph[i].path == p
  }

  ghost predicate MapIs(refs: RuntimeGraph, pop: Popularity, cmap: map<string, Closure>, n: nat)
    requires n <= |refs.graph|
  {
    && (forall p :: p in cmap <==> ListedBefore(refs, p, n))
    && (forall i: nat :: Latest(refs, i, n) ==>
          refs.graph[i].path in cmap && cmap[refs.graph[i].path] == ClosureOf(refs, pop, i))
  }

  lemma OneEntry(refs: RuntimeGraph, n: nat)
    requires n < |refs.graph|
    ensures forall p :: ListedBefore(refs, p, n + 1) <==> ListedBefore(refs, p, n) || p == refs.graph[n].path
    ensures forall i: nat :: Latest(refs, i, n + 1) <==> i == n || (Latest(refs, i, n) && refs.graph[i].path != refs.graph[n].path)
  {
    forall p ensures ListedBefore(refs, p, n + 1) <==> ListedBefore(refs, p, n) || p == refs.graph[n].path {
      if p == refs.graph[n].path {
        assert refs.graph[n].path == p;
      } else if ListedBefore(refs, p, n) {
        var i :| 0 <= i < n && refs.graph[i].path == p;
        assert 0 <= i < n + 1;
      }
    }
    hide ListedBefore;
    forall i: nat
      ensures Latest(refs, i, n + 1) <==> i == n || (Latest(refs, i, n) && refs.graph[i].path != refs.graph[n].path)
    {
      if i < n {
        assert (forall j :: i < j < n + 1 ==> refs.graph[j].path != refs.graph[i].path)
          <==> (forall j :: i < j < n ==> refs.graph[j].path != refs.graph[i].path) && refs.graph[n].path != refs.graph[i].path;
      }
    }
  }

  ghost predicate Closed(refs: RuntimeGraph, cmap: map<string, Closure>) {
    && (forall p :: p in refs.references ==> p in cmap)
    && (forall q, p :: q in cmap && p in cmap[q].refs ==> p in cmap)
  }

  ghost predicate FromReferences(refs: RuntimeGraph, cmap: map<string, Closure>, e: (Node, Node))
    requires Closed(refs, cmap)
  {
    exists p :: p in refs.references && e == (ROOT, cmap[p].graphId)
  }

  ghost predicate FromNode(refs: RuntimeGraph, cmap: map<string, Closure>, done: set<string>, e: (Node, Node))
    requires Closed(refs, cmap)
  {
    exists q :: q in done && q in cmap && e in NodeEdges(cmap, cmap[q])
  }

  /** The edges that are there once the closures of `done` have been visited. */
  ghost predicate EdgesAre(refs: RuntimeGraph, cmap: map<string, Closure>, edges: Edges, done: set<string>)
    requires Closed(refs, cmap)
  {
    forall e :: e in edges <==> FromReferences(refs, cmap, e) || FromNode(refs, cmap, done, e)
  }

  lemma NoneVisited(refs: RuntimeGraph, cmap: map<string, Closure>)
    requires Closed(refs, cmap)
    ensures EdgesAre(refs, cmap, ReferenceEdges(refs.references, cmap), {})
  {}

  lemma OneVisited(refs: RuntimeGraph, cmap: map<string, Closure>, edges: Edges, done: set<string>, p: string)
    requires Closed(refs, cmap) && EdgesAre(refs, cmap, edges, done) && p in cmap
    ensures EdgesAre(refs, cmap, edges + NodeEdges(cmap, cmap[p]), done + {p})
  {
    hide NodeEdges, FromReferences;
    forall e ensures FromNode(refs, cmap, done + {p}, e) <==> FromNode(refs, cmap, done, e) || e in NodeEdges(cmap, cmap[p]) {
      if FromNode(refs, cmap, done, e) {
        var q :| q in done && q in cmap && e in NodeEdges(cmap, cmap[q]);
        assert q in done + {p};
      }
    }
  }

  lemma Entry(refs: RuntimeGraph, pop: Popularity, cmap: map<string, Closure>, p: string) returns (i: nat)
    requires MapIs(refs, pop, cmap, |refs.graph|) && p in cmap
    ensures Latest(refs, i, |refs.graph|) && refs.graph[i].path == p && cmap[p] == ClosureOf(refs, pop, i)
  {
    hide PopularityOf, ClosureOf;
    assert ListedBefore(refs, p, |refs.graph|);
    var k :| 0 <= k < |refs.graph| && refs.graph[k].path == p;
    i := HasLatest(refs, k, |refs.graph|);
  }

  lemma EdgeIsWanted(refs: RuntimeGraph, pop: Popularity, cmap: map<string, Closure>, e: (Node, Node))
    requires Complete(refs) && MapIs(refs, pop, cmap, |refs.graph|) && Closed(refs, cmap)
    requires FromReferences(refs, cmap, e) || FromNode(refs, cmap, cmap.Keys, e)
    ensures Wanted(refs, pop, e.0, e.1)
  {
    hide PopularityOf, MapIs, Complete;
    if FromReferences(refs, cmap, e) {
      var p :| p in refs.references && e == (ROOT, cmap[p].graphId);
      var i := Entry(refs, pop, cmap, p);
    } else {
      var q :| q in cmap.Keys && q in cmap && e in NodeEdges(cmap, cmap[q]);
      var i := Entry(refs, pop, cmap, q);
      if e.0 != ROOT {
        var p :| p in cmap[q].refs && p != q && e == (i + 1, cmap[p].graphId);
        var j := Entry(refs, pop, cmap, p);
      }
    }
  }

  lemma WantedIsEdge(refs: RuntimeGraph, pop: Popularity, cmap: map<string, Closure>, a: Node, b: Node)
    requires Complete(refs) && MapIs(refs, pop, cmap, |refs.graph|) && Closed(refs, cmap)
    requires Wanted(refs, pop, a, b)
    ensures FromReferences(refs, cmap, (a, b)) || FromNode(refs, cmap, cmap.Keys, (a, b))
  {
    hide PopularityOf;
    var c := ClosureOf(refs, pop, b - 1);
    assert refs.graph[b - 1].path == c.path && cmap[c.path] == c && c.graphId == b;
    if a == ROOT {
      if c.path in refs.references {
        assert FromReferences(refs, cmap, (a, b));
      } else {
        assert (a, b) in NodeEdges(cmap, cmap[c.path]);
      }
    } else {
      var q := refs.graph[a - 1].path;
      assert cmap[q] == ClosureOf(refs, pop, a - 1);
      assert (a, b) in NodeEdges(cmap, cmap[q]);
    }
  }

  /** The edges of the finished graph. */
  ghost predicate EdgesWanted(refs: RuntimeGraph, pop: Popularity, edges: Edges) {
    forall a: Node, b: Node :: (a, b) in edges <==> Wanted(refs, pop, a, b)
  }

  lemma AllEdges(refs: RuntimeGraph, pop: Popularity, cmap: map<string, Closure>, edges: Edges)
    requires Complete(refs) && MapIs(refs, pop, cmap, |refs.graph|) && Closed(refs, cmap)
    requires EdgesAre(refs, cmap, edges, cmap.Keys)
    ensures EdgesWanted(refs, pop, edges)
  {
    hide Wanted, FromReferences, FromNode, MapIs, Complete, Closed;
    forall a: Node, b: Node ensures (a, b) in edges <==> Wanted(refs, pop, a, b) {
      if (a, b) in edges {
        EdgeIsWanted(refs, pop, cmap, (a, b));
      }
      if Wanted(refs, pop, a, b) {
        WantedIsEdge(refs, pop, cmap, a, b);
      }
    }
  }

  /** Everything that is mentioned has been inserted. */
  lemma AllMapped(refs: RuntimeGraph, pop: Popularity, cmap: map<string, Closure>)
    requires Complete(refs) && MapIs(refs, pop, cmap, |refs.graph|)
    ensures Closed(refs, cmap)
  {
    forall p | Listed(refs, p) ensures p in cmap {
      assert ListedBefore(refs, p, |refs.graph|);
    }
    hide Latest, ListedBefore, PopularityOf;
    forall q, p | q in cmap && p in cmap[q].refs ensures p in cmap {
      var i := Entry(refs, pop, cmap, q);
      assert Listed(refs, p);
    }
  }

  ghost function ReferenceEdges(refs: seq<string>, cmap: map<string, Closure>): Edges
    requires forall p :: p in refs ==> p in cmap
  {
    set p | p in refs :: (ROOT, cmap[p].graphId)
  }

  lemma OneReference(refs: seq<string>, cmap: map<string, Closure>, k: nat)
    requires k < |refs| && forall p :: p in refs ==> p in cmap
    ensures ReferenceEdges(refs[..k + 1], cmap) == ReferenceEdges(refs[..k], cmap) + {(ROOT, cmap[refs[k]].graphId)}
  {
    assert refs[..k + 1] == refs[..k] + [refs[k]];
  }

  lemma OneNode(refs: RuntimeGraph, pop: Popularity, nodes: map<Node, Closure>, cmap: map<string, Closure>, n: nat)
    requires Complete(refs) && n < |refs.graph| && NodesAre(refs, pop, nodes, n) && MapIs(refs, pop, cmap, n)
    ensures var c := ClosureOf(refs, pop, n);
      NodesAre(refs, pop, nodes[c.graphId := c], n + 1) && MapIs(refs, pop, cmap[c.path := c], n + 1)
  {
    hide PopularityOf, MapIs;
    OneMapped(refs, pop, cmap, n);
  }

  lemma OneMapped(refs: RuntimeGraph, pop: Popularity, cmap: map<string, Closure>, n: nat)
    requires n < |refs.graph| && MapIs(refs, pop, cmap, n)
    ensures MapIs(refs, pop, cmap[refs.graph[n].path := ClosureOf(refs, pop, n)], n + 1)
  {
    hide ClosureOf, ListedBefore, Latest;
    OneEntry(refs, n);
    var (path, cmap') := (refs.graph[n].path, cmap[refs.graph[n].path := ClosureOf(refs, pop, n)]);
    assert forall p :: p in cmap' <==> p in cmap || p == path;
    assert forall p :: p in cmap' <==> ListedBefore(refs, p, n + 1);
  }

  /** `buildGraph` */
  method BuildGraph(refs: RuntimeGraph, pop: Popularity) returns (graph: DirectedGraph)
    requires Complete(refs)
    ensures fresh(graph) && NodesAre(refs, pop, graph.nodes, |refs.graph|)
    ensures EdgesWanted(refs, pop, graph.edges)
  {
    var cmap: map<string, Closure> := map[];
    graph := new DirectedGraph();
    graph.AddNode(IMAGE_ROOT);
    assert MapIs(refs, pop, cmap, 0) && NodesAre(refs, pop, graph.nodes, 0);
    hide Latest, ListedBefore, MapIs, NodesAre, Complete, NodeEdges, EdgesAre, PopularityOf, ReferenceEdges;
    for idx := 0 to |refs.graph|
      invariant NodesAre(refs, pop, graph.nodes, idx) && graph.edges == {}
      invariant MapIs(refs, pop, cmap, idx)
    {
      var node := ClosureOf(refs, pop, idx);
      OneNode(refs, pop, graph.nodes, cmap, idx);
      graph.AddNode(node);
      cmap := cmap[node.path := node];
    }
    AllMapped(refs, pop, cmap);
    InsertAll(refs, pop, cmap, graph);
  }

  /** The two loops of `buildGraph` that insert edges. */
  method InsertAll(refs: RuntimeGraph, ghost pop: Popularity, cmap: map<string, Closure>, graph: DirectedGraph)
    requires Complete(refs) && MapIs(refs, pop, cmap, |refs.graph|) && Closed(refs, cmap)
    requires graph.edges == {}
    modifies graph`edges
    ensures EdgesWanted(refs, pop, graph.edges)
  {
    NoReferences(cmap);
    hide MapIs, Complete, NodeEdges, EdgesAre, ReferenceEdges;
    assert refs.references[..0] == [];
    for k := 0 to |refs.references|
      invariant graph.edges == ReferenceEdges(refs.references[..k], cmap)
    {
      OneReference(refs.references, cmap, k);
      graph.SetEdge(ROOT, cmap[refs.references[k]].graphId);
    }
    assert refs.references[..|refs.references|] == refs.references;
    NoneVisited(refs, cmap);
    var todo := cmap.Keys;
    assert cmap.Keys - todo == {};
    while todo != {}
      invariant todo <= cmap.Keys && EdgesAre(refs, cmap, graph.edges, cmap.Keys - todo)
      decreases |todo|
    {
      var p :| p in todo;
      OneVisited(refs, cmap, graph.edges, cmap.Keys - todo, p);
      InsertEdges(graph, cmap, cmap[p]);
      assert cmap.Keys - (todo - {p}) == (cmap.Keys - todo) + {p};
      todo := todo - {p};
    }
    assert cmap.Keys - {} == cmap.Keys;
    AllEdges(refs, pop, cmap, graph.edges);
  }

  lemma NoReferences(cmap: map<string, Closure>)
    ensures ReferenceEdges([], cmap) == {}
  {}
}
