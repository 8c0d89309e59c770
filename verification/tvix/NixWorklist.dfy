// The virtual machine's side of value equality: `nix_op_eq` over the value stack.
module NixWorklist {
  import opened NixEquality

  /** The pairs of operands on the worklist, deepest first. */
  type Pairs = seq<(Value, Value)>

  /** How the pairs lie on the stack: left below right. */
  ghost function Flat(ps: Pairs): (vs: seq<Value>)
    ensures |vs| == 2 * |ps|
  {
    if ps == [] then [] else Flat(ps[..|ps| - 1]) + [ps[|ps| - 1].0, ps[|ps| - 1].1]
  }

  ghost function PairsSize(ps: Pairs): nat {
    if ps == [] then 0 else PairsSize(ps[..|ps| - 1]) + Size(ps[|ps| - 1].0)
  }

  function Zip(l1: seq<Value>, l2: seq<Value>): (ps: Pairs)
    requires |l1| == |l2|
    ensures |ps| == |l1|
  {
    seq(|l1|, k requires 0 <= k < |l1| => (l1[k], l2[k]))
  }

  /** What the whole worklist evaluates to. */
  ghost function CompareWork(ps: Pairs, top: bool, inside: bool): Result<bool> {
    var n := |ps|;
    if n == 0 then Ok(true)
    else
      var last :- Compare(ps[n - 1].0, ps[n - 1].1, top, inside);
      if last then CompareWork(ps[..n - 1], top, inside) else Ok(false)
  }

  lemma {:induction false} WorkOfLists(ps: Pairs, l1: seq<Value>, l2: seq<Value>, top: bool)
    requires |l1| == |l2|
    ensures CompareWork(ps + Zip(l1, l2), top, true)
         == match CompareAll(l1, l2, top, true)
            case Err(e) => Err(e)
            case Ok(b) => if b then CompareWork(ps, top, true) else Ok(false)
    ensures PairsSize(ps + Zip(l1, l2)) == PairsSize(ps) + SizeAll(l1)
  {
    hide Compare;
    var n := |l1|;
    var all := ps + Zip(l1, l2);
    if n == 0 {
      assert all == ps;
    } else {
      assert all[..|all| - 1] == ps + Zip(l1[..n - 1], l2[..n - 1]);
      WorkOfLists(ps, l1[..n - 1], l2[..n - 1], top);
    }
  }

  lemma FlatSnoc(ps: Pairs, p: (Value, Value))
    ensures Flat(ps + [p]) == Flat(ps) + [p.0, p.1]
  {
    assert (ps + [p])[..|ps|] == ps;
  }

  lemma WorkFront(ps: Pairs, top: bool, inside: bool)
    requires ps != []
    ensures var (front, p) := (ps[..|ps| - 1], ps[|ps| - 1]);
      && CompareWork(ps, top, inside)
         == (match Compare(p.0, p.1, top, inside)
             case Err(e) => Err(e)
             case Ok(b) => if b then CompareWork(front, top, inside) else Ok(false))
      && PairsSize(ps) == PairsSize(front) + Size(p.0)
      && Flat(ps) == Flat(front) + [p.0, p.1]
  {
    hide Compare;
  }

  lemma WorkNone(top: bool, inside: bool)
    ensures CompareWork([], top, inside) == Ok(true)
  {}

  lemma ContentsSmaller(w: Value)
    ensures w.List? ==> SizeAll(w.items) < Size(w)
    ensures w.Attrs? ==> SizeAll(Values(w.attrs)) < Size(w)
  {}

  /** What one iteration achieves for a pair whose comparison gives `answer`: an error, or a
      result `r` and a stack on which `more` lies above `ps`. On `Ok(true)` the worklist that
      is left is worth as much as the pair and the rest together. */
  ghost predicate Advances(
    answer: Result<bool>, r: Result<bool>, stack: seq<Value>, base: seq<Value>,
    ps: Pairs, more: Pairs, top: bool, allow: bool, allow': bool)
  {
    match r
    case Err(e) => answer == Err(e)
    case Ok(false) => answer == Ok(false) && stack == base + Flat(ps + more)
    case Ok(true) =>
      && stack == base + Flat(ps + more)
      && CompareWork(ps + more, top, allow')
         == (match answer
             case Err(e) => Err(e)
             case Ok(b) => if b then CompareWork(ps, top, allow) else Ok(false))
  }

  class VM {
    var stack: seq<Value>

    constructor (stack: seq<Value>)
      ensures this.stack == stack
    {
      this.stack := stack;
    }

    method Pop() returns (v: Value)
      requires stack != []
      modifies this
      ensures stack == old(stack)[..|old(stack)| - 1] && v == old(stack)[|old(stack)| - 1]
    {
      v := stack[|stack| - 1];
      stack := stack[..|stack| - 1];
    }

    method Push(v: Value)
      modifies this
      ensures stack == old(stack) + [v]
    {
      stack := stack + [v];
    }

    method PopThenDrop(n: nat)
      requires n <= |stack|
      modifies this
      ensures stack == old(stack)[..|old(stack)| - n]
    {
      stack := stack[..|stack| - n];
    }

    /** Puts one more pair on the worklist. */
    method PushPair(v1: Value, v2: Value, ghost base: seq<Value>, ghost ps: Pairs)
      requires stack == base + Flat(ps)
      modifies this
      ensures stack == base + Flat(ps + [(v1, v2)])
    {
      FlatSnoc(ps, (v1, v2));
      stack := stack + [v1];
      stack := stack + [v2];
    }

    /** The loop over the elements of two lists. */
    method PushItems(l1: seq<Value>, l2: seq<Value>, ghost base: seq<Value>, ghost ps: Pairs)
      requires |l1| == |l2| && stack == base + Flat(ps)
      modifies this
      ensures stack == base + Flat(ps + Zip(l1, l2))
    {
      hide Flat;
      assert ps + Zip([], []) == ps;
      for k := 0 to |l1|
        invariant stack == base + Flat(ps + Zip(l1[..k], l2[..k]))
      {
        PushPair(l1[k], l2[k], base, ps + Zip(l1[..k], l2[..k]));
        assert ps + Zip(l1[..k + 1], l2[..k + 1]) == ps + Zip(l1[..k], l2[..k]) + [(l1[k], l2[k])];
      }
      assert l1[..|l1|] == l1 && l2[..|l2|] == l2;
    }

    /** The loop over the attributes of two sets of the same size; it stops at the first
        position where the keys differ. */
    method PushAttrs(a1: seq<Attr>, a2: seq<Attr>, ghost base: seq<Value>, ghost ps: Pairs)
      returns (same: bool, pushed: nat)
      requires |a1| == |a2| && stack == base + Flat(ps)
      modifies this
      ensures same == SameKeys(a1, a2) && pushed <= |a1| && (same ==> pushed == |a1|)
      ensures stack == base + Flat(ps + Zip(Values(a1)[..pushed], Values(a2)[..pushed]))
    {
      hide Flat;
      ghost var l1, l2 := Values(a1), Values(a2);
      hide Values;
      assert ps + Zip(l1[..0], l2[..0]) == ps;
      pushed := 0;
      while pushed < |a1|
        invariant pushed <= |a1| && forall k :: 0 <= k < pushed ==> a1[k].key == a2[k].key
        invariant stack == base + Flat(ps + Zip(l1[..pushed], l2[..pushed]))
      {
        if a1[pushed].key != a2[pushed].key {
          return false, pushed;
        }
        PushPair(a1[pushed].val, a2[pushed].val, base, ps + Zip(l1[..pushed], l2[..pushed]));
        assert ps + Zip(l1[..pushed + 1], l2[..pushed + 1]) == ps + Zip(l1[..pushed], l2[..pushed]) + [(l1[pushed], l2[pushed])];
        pushed := pushed + 1;
      }
      same := true;
    }

    /** The branch of the loop for two attribute sets that are not the same object. */
    method CompareAttrs(a1: seq<Attr>, a2: seq<Attr>, top: bool, ghost base: seq<Value>, ghost ps: Pairs)
      returns (r: Result<bool>, pushed: nat, ghost more: Pairs)
      requires stack == base + Flat(ps)
      modifies this
      ensures pushed == |more|
      ensures r == Ok(true) ==> PairsSize(ps + more) <= PairsSize(ps) + SizeAll(Values(a1))
      ensures Advances(CompareSets(a1, a2, top), r, stack, base, ps, more, top, true, true)
    {
      hide Size, SizeAll, Select, BothDerivations, OutPath, CompareAll, Values, CompareWork, PairsSize, Flat;
      pushed, more := 0, [];
      assert ps + [] == ps;
      var derivations := BothDerivations(a1, a2);
      if derivations.Err? {
        return Err(derivations.problem), pushed, more;
      }
      if derivations.value {
        var out1 := OutPath(a1);
        if out1.Err? {
          return Err(out1.problem), pushed, more;
        }
        var out2 := OutPath(a2);
        if out2.Err? {
          return Err(out2.problem), pushed, more;
        }
        return Ok(out1.value == out2.value), pushed, more;
      }
      if |a1| != |a2| {
        return Ok(false), pushed, more;
      }
      var same;
      same, pushed := PushAttrs(a1, a2, base, ps);
      more := Zip(Values(a1)[..pushed], Values(a2)[..pushed]);
      if !same {
        return Ok(false), pushed, more;
      }
      WorkOfLists(ps, Values(a1), Values(a2), top);
      assert more == Zip(Values(a1), Values(a2));
      return Ok(true), pushed, more;
    }

    /** The body of the loop, for the pair `v1`, `v2` that was taken from the worklist:
        `Ok(false)` is its `break false`, and otherwise it goes on to the next iteration. In
        either case there may be `pushed` more pairs on the stack. */
    method CompareNext(v1: Value, v2: Value, top: bool, allow: bool, ghost base: seq<Value>, ghost ps: Pairs)
      returns (r: Result<bool>, allow': bool, pushed: nat, ghost more: Pairs)
      requires stack == base + Flat(ps) && (top ==> allow) && (allow || ps == [])
      modifies this
      ensures pushed == |more| && (allow ==> allow') && (allow' || more == [])
      ensures r == Ok(true) ==> PairsSize(ps + more) < PairsSize(ps) + Size(v1)
      ensures Advances(Compare(v1, v2, top, allow), r, stack, base, ps, more, top, allow, allow')
    {
      hide Size, SizeAll, Force, LeafEq, CompareAll, CompareSets, Values, CompareWork, PairsSize, Flat;
      allow', pushed, more := allow, 0, [];
      assert ps + [] == ps;
      if top && v1.Thunk? && v2.Thunk? && v1.ptr == v2.ptr {
        return Ok(true), allow', pushed, more;
      }
      var f2, f1 := Force(v2), Force(v1);
      if f2.Err? {
        return Err(f2.problem), allow', pushed, more;
      }
      if f1.Err? {
        return Err(f1.problem), allow', pushed, more;
      }
      var w1, w2 := f1.value, f2.value;
      assert Compare(v1, v2, top, allow) == CompareForced(w1, w2, top, allow);
      hide Compare;
      ContentsSmaller(w1);
      WorkNone(top, allow);
      WorkNone(top, true);
      if w1.List? && w2.List? {
        allow' := true;
        if w1.ptr == w2.ptr {
          return Ok(true), allow', pushed, more;
        }
        if |w1.items| != |w2.items| {
          return Ok(false), allow', pushed, more;
        }
        PushItems(w1.items, w2.items, base, ps);
        WorkOfLists(ps, w1.items, w2.items, top);
        pushed, more := |w1.items|, Zip(w1.items, w2.items);
      } else if w1.List? || w2.List? {
        return Ok(false), allow', pushed, more;
      } else if w1.Attrs? && w2.Attrs? {
        if allow && w1.ptr == w2.ptr {
          return Ok(true), allow', pushed, more;
        }
        allow' := true;
        r, pushed, more := CompareAttrs(w1.attrs, w2.attrs, top, base, ps);
        return;
      } else if w1.Attrs? || w2.Attrs? {
        return Ok(false), allow', pushed, more;
      } else {
        if allow && w1.Closure? && w2.Closure? && w1.ptr == w2.ptr {
          return Ok(true), allow', pushed, more;
        }
        if !(w1.Leaf? && w2.Leaf? && LeafEq(w1.leaf, w2.leaf)) {
          return Ok(false), allow', pushed, more;
        }
      }
      return Ok(true), allow', pushed, more;
    }

    /** `nix_op_eq`: on every exit without an error the two operands have been replaced by
        the answer of the recursive comparison, and nothing below them has changed. */
    method NixOpEq(allowTopLevel: bool) returns (r: Result<()>)
      requires |stack| >= 2
      modifies this
      ensures var n := |old(stack)|;
        match Compare(old(stack)[n - 2], old(stack)[n - 1], allowTopLevel, allowTopLevel)
        case Ok(b) => r == Ok(()) && stack == old(stack)[..n - 2] + [Leaf(Bool(b))]
        case Err(e) => r == Err(e)
    {
      hide Compare, Size;
      ghost var base := stack[..|stack| - 2];
      ghost var ps: Pairs := [(stack[|stack| - 2], stack[|stack| - 1])];
      ghost var answer := Compare(ps[0].0, ps[0].1, allowTopLevel, allowTopLevel);
      var allow := allowTopLevel;
      var numpairs := 1;
      var res := true;
      WorkFront(ps, allowTopLevel, allow);
      WorkNone(allowTopLevel, allow);
      hide PairsSize, Flat, CompareWork;
      while true
        invariant numpairs == |ps| && stack == base + Flat(ps)
        invariant allow || |ps| <= 1
        invariant allowTopLevel ==> allow
        invariant CompareWork(ps, allowTopLevel, allow) == answer
        invariant res
        decreases PairsSize(ps)
      {
        if numpairs == 0 {
          WorkNone(allowTopLevel, allow);
          break;
        }
        numpairs := numpairs - 1;
        ghost var (o1, o2) := ps[|ps| - 1];
        WorkFront(ps, allowTopLevel, allow);
        ps := ps[..|ps| - 1];
        assert stack == (base + Flat(ps)) + [o1, o2];
        var v2 := Pop();
        assert stack == (base + Flat(ps)) + [o1];
        var v1 := Pop();
        assert stack == base + Flat(ps);
        var next, allow', pushed, more := CompareNext(v1, v2, allowTopLevel, allow, base, ps);
        if next.Err? {
          return Err(next.problem);
        }
        allow := allow';
        numpairs := numpairs + pushed;
        ps := ps + more;
        if !next.value {
          res := false;
          break;
        }
      }
      assert stack[..|stack| - numpairs * 2] == base;
      PopThenDrop(numpairs * 2);
      Push(Leaf(Bool(res)));
      return Ok(());
    }

    /** `nix_eq` */
    method NixEq(v1: Value, v2: Value, allowTopLevel: bool) returns (r: Result<bool>)
      modifies this
      ensures r == Compare(v1, v2, allowTopLevel, allowTopLevel)
      ensures r.Ok? ==> stack == old(stack)
    {
      Push(v1);
      Push(v2);
      var done :- NixOpEq(allowTopLevel);
      var v := Pop();
      return Ok(v.leaf.b);
    }
  }
}
