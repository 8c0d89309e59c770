// Dominance in a directed graph, defined by paths from the root, and the tree of
// immediate dominators.
module Dominators {

  type Node = nat
  type Edges = set<(Node, Node)>

  const ROOT: Node := 0

  /** A path from the root. */
  ghost predicate IsPath(edges: Edges, p: seq<Node>) {
    && p != [] && p[0] == ROOT
    && forall i :: 0 < i < |p| ==> (p[i - 1], p[i]) in edges
  }

  ghost predicate Leads(edges: Edges, p: seq<Node>, n: Node) {
    IsPath(edges, p) && p[|p| - 1] == n
  }

  ghost predicate Reachable(edges: Edges, n: Node) {
    exists p :: Leads(edges, p, n)
  }

  /** Every path from the root to `n` passes through `d`. */
  ghost predicate Dominates(edges: Edges, d: Node, n: Node) {
    forall p :: Leads(edges, p, n) ==> d in p
  }

  ghost predicate StrictlyDominates(edges: Edges, d: Node, n: Node) {
    d != n && Dominates(edges, d, n)
  }

  /** `d` is the immediate dominator of `n`. */
  ghost predicate Immediate(edges: Edges, d: Node, n: Node) {
    && StrictlyDominates(edges, d, n)
    && forall e :: StrictlyDominates(edges, e, n) ==> Dominates(edges, e, d)
  }

  /** `idom` is the dominator tree: the parent of every node that can be reached, but the root. */
  ghost predicate IsTree(edges: Edges, idom: map<Node, Node>) {
    && (forall n :: n in idom <==> n != ROOT && Reachable(edges, n))
    && (forall n :: n in idom ==> Immediate(edges, idom[n], n))
  }

  lemma PrefixLeads(edges: Edges, p: seq<Node>, k: nat)
    requires IsPath(edges, p) && k < |p|
    ensures Leads(edges, p[..k + 1], p[k])
  {}

  lemma DominatesSelf(edges: Edges, n: Node)
    ensures Dominates(edges, n, n)
  {}

  lemma Transitive(edges: Edges, a: Node, b: Node, c: Node)
    requires Dominates(edges, a, b) && Dominates(edges, b, c)
    ensures Dominates(edges, a, c)
  {
    forall p | Leads(edges, p, c) ensures a in p {
      assert b in p;
      var k :| 0 <= k < |p| && p[k] == b;
      PrefixLeads(edges, p, k);
      assert a in p[..k + 1];
    }
  }

  /** A path on which the last node does not occur before. */
  lemma {:induction false} FirstVisit(edges: Edges, p: seq<Node>, n: Node) returns (q: seq<Node>)
    requires Leads(edges, p, n)
    ensures Leads(edges, q, n) && n !in q[..|q| - 1]
  {
    if k :| 0 <= k < |p| - 1 && p[k] == n {
      PrefixLeads(edges, p, k);
      q := FirstVisit(edges, p[..k + 1], n);
    } else {
      q := p;
    }
  }

  /** Two nodes that dominate each other are the same. */
  lemma Antisymmetric(edges: Edges, a: Node, b: Node)
    requires Dominates(edges, a, b) && Dominates(edges, b, a) && Reachable(edges, b)
    ensures a == b
  {
    var p0 :| Leads(edges, p0, b);
    var p := FirstVisit(edges, p0, b);
    assert a in p;
    var k :| 0 <= k < |p| && p[k] == a;
    PrefixLeads(edges, p, k);
    assert b in p[..k + 1];
  }

  /** Only the root dominates the root, and it dominates everything. */
  lemma RootDominates(edges: Edges, n: Node)
    ensures Dominates(edges, ROOT, n)
    ensures Dominates(edges, n, ROOT) ==> n == ROOT
  {
    assert Leads(edges, [ROOT], ROOT);
  }

  lemma {:induction false} LastStrict(edges: Edges, p: seq<Node>, n: Node, k: nat) returns (j: nat)
    requires k < |p| && StrictlyDominates(edges, p[k], n)
    ensures k <= j < |p| && StrictlyDominates(edges, p[j], n)
    ensures forall i :: j < i < |p| ==> !StrictlyDominates(edges, p[i], n)
    decreases |p| - k
  {
    if i: nat :| k < i < |p| && StrictlyDominates(edges, p[i], n) {
      j := LastStrict(edges, p, n, i);
    } else {
      j := k;
    }
  }

  /** Every node that can be reached, but the root, has an immediate dominator: the last
      one of its strict dominators on any path. */
  lemma ImmediateExists(edges: Edges, n: Node) returns (d: Node)
    requires Reachable(edges, n) && n != ROOT
    ensures Immediate(edges, d, n)
  {
    var p :| Leads(edges, p, n);
    RootDominates(edges, n);
    var k := LastStrict(edges, p, n, 0);
    d := p[k];
    forall e | StrictlyDominates(edges, e, n) ensures Dominates(edges, e, d) {
      forall q | Leads(edges, q, d) ensures e in q {
        var detour := q + p[k + 1..];
        assert Leads(edges, detour, n);
        assert e in detour;
      }
    }
  }

  lemma ImmediateUnique(edges: Edges, d: Node, e: Node, n: Node)
    requires Immediate(edges, d, n) && Immediate(edges, e, n) && Reachable(edges, n)
    ensures d == e
  {
    var p :| Leads(edges, p, n);
    assert d in p;
    var k :| 0 <= k < |p| && p[k] == d;
    PrefixLeads(edges, p, k);
    Antisymmetric(edges, e, d);
  }

  /** A set that holds `r` and, with every node, the nodes directly below it in the tree,
      holds everything that `r` dominates. */
  lemma {:induction false} ClosedHoldsDominated(edges: Edges, idom: map<Node, Node>, r: Node, s: set<Node>, p: seq<Node>, n: Node)
    requires IsTree(edges, idom) && r in s
    requires forall m :: m in idom && idom[m] in s ==> m in s
    requires Leads(edges, p, n) && Dominates(edges, r, n)
    ensures n in s
    decreases |p|
  {
    if n != r {
      if n == ROOT {
        RootDominates(edges, r);
      }
      assert Reachable(edges, n);
      var d := idom[n];
      assert Immediate(edges, d, n) && StrictlyDominates(edges, r, n);
      assert d in p;
      var k :| 0 <= k < |p| && p[k] == d;
      PrefixLeads(edges, p, k);
      ClosedHoldsDominated(edges, idom, r, s, p[..k + 1], d);
    }
  }

  /** Every node that can be reached, but the root, is dominated by a child of the root. */
  lemma {:induction false} TopExists(edges: Edges, idom: map<Node, Node>, p: seq<Node>, n: Node) returns (r: Node)
    requires IsTree(edges, idom) && Leads(edges, p, n) && n != ROOT
    ensures r in idom && idom[r] == ROOT && Dominates(edges, r, n)
    decreases |p|
  {
    assert Reachable(edges, n);
    var d := idom[n];
    assert Immediate(edges, d, n);
    if d == ROOT {
      r := n;
    } else {
      assert d in p;
      var k :| 0 <= k < |p| && p[k] == d;
      PrefixLeads(edges, p, k);
      r := TopExists(edges, idom, p[..k + 1], d);
      Transitive(edges, r, d, n);
    }
  }

  /** … and by only one of them. */
  lemma {:induction false} TopUnique(edges: Edges, idom: map<Node, Node>, p: seq<Node>, n: Node, r: Node, s: Node)
    requires IsTree(edges, idom) && Leads(edges, p, n)
    requires r in idom && idom[r] == ROOT && Dominates(edges, r, n)
    requires s in idom && idom[s] == ROOT && Dominates(edges, s, n)
    ensures r == s
    decreases |p|
  {
    RootDominates(edges, r);
    RootDominates(edges, s);
    assert Reachable(edges, n);
    assert Immediate(edges, ROOT, r) && Immediate(edges, ROOT, s);
    if r != n && s != n {
      var d := idom[n];
      assert Immediate(edges, d, n) && StrictlyDominates(edges, r, n) && StrictlyDominates(edges, s, n);
      assert d in p;
      var k :| 0 <= k < |p| && p[k] == d;
      PrefixLeads(edges, p, k);
      TopUnique(edges, idom, p[..k + 1], d, r, s);
    }
  }

  /** A direct edge from the root makes a node a child of the root. */
  lemma EdgeFromRoot(edges: Edges, idom: map<Node, Node>, n: Node)
    requires IsTree(edges, idom) && n != ROOT && (ROOT, n) in edges
    ensures n in idom && idom[n] == ROOT
  {
    assert Leads(edges, [ROOT, n], n);
    assert Reachable(edges, n);
    assert Immediate(edges, idom[n], n);
    assert idom[n] in [ROOT, n];
  }

  ghost function Idom(edges: Edges, n: Node): (d: Node)
    requires Reachable(edges, n) && n != ROOT
    ensures Immediate(edges, d, n)
  {
    assert exists d :: Immediate(edges, d, n) by {
      var d := ImmediateExists(edges, n);
    }
    var d :| Immediate(edges, d, n);
    d
  }

  /** Every graph has a dominator tree, and only one. */
  lemma TreeExists(edges: Edges) returns (idom: map<Node, Node>)
    ensures IsTree(edges, idom)
  {
    var targets := set e | e in edges :: e.1;
    forall n | Reachable(edges, n) && n != ROOT ensures n in targets {
      var p :| Leads(edges, p, n);
      assert (p[|p| - 2], p[|p| - 1]) in edges;
    }
    idom := map n | n in targets && n != ROOT && Reachable(edges, n) :: Idom(edges, n);
  }

  lemma TreeUnique(edges: Edges, a: map<Node, Node>, b: map<Node, Node>)
    requires IsTree(edges, a) && IsTree(edges, b)
    ensures a == b
  {
    assert forall n :: n in a <==> n in b;
    forall n | n in a ensures a[n] == b[n] {
      assert Reachable(edges, n);
      ImmediateUnique(edges, a[n], b[n], n);
    }
  }
}
