// Equality of Nix values: the worklist that the virtual machine keeps on its own value
// stack, the recursive comparison that it computes, and what that comparison means.
module NixEquality {
  import opened Common

  /** What ends an evaluation without an answer. `NoOutPath` is a panic, the others are errors. */
  datatype Problem = ForceFailed | NotCoercibleToString | NoOutPath | TypeError | AttributeNotFound | CallFailed

  datatype Result<+A> = Ok(value: A) | Err(problem: Problem) {
    predicate IsFailure() {
      Err?
    }

    function PropagateFailure<B>(): Result<B>
      requires Err?
    {
      Err(problem)
    }

    function Extract(): A
      requires Ok?
    {
      value
    }
  }

  datatype Float = NaN | Finite(r: real)

  datatype Leaf =
    | Null
    | Bool(b: bool)
    | Int(i: int)
    | Float(f: Float)
    | Str(s: string)
    | Path(p: string)
    | Builtin(name: string)

  datatype Attr = Attr(key: string, val: Value)

  /** Values; `ptr` is the address behind the `Rc`. Attribute sets list their attributes in
      key order, and a thunk knows what forcing it will give (`None` for an error). */
  datatype Value =
    | Leaf(leaf: Leaf)
    | Closure(ptr: nat)
    | List(ptr: nat, items: seq<Value>)
    | Attrs(ptr: nat, attrs: seq<Attr>)
    | Thunk(ptr: nat, outcome: Option<Value>)

  ghost function Size(v: Value): (n: nat)
    ensures n >= 1
  {
    match v
    case List(_, items) => 1 + SizeAll(items)
    case Attrs(_, attrs) => 1 + SizeAttrs(attrs)
    case Thunk(_, Some(w)) => 1 + Size(w)
    case _ => 1
  }

  ghost function SizeAll(vs: seq<Value>): nat {
    if vs == [] then 0 else SizeAll(vs[..|vs| - 1]) + Size(vs[|vs| - 1])
  }

  ghost function SizeAttrs(attrs: seq<Attr>): nat {
    if attrs == [] then 0 else SizeAttrs(attrs[..|attrs| - 1]) + Size(attrs[|attrs| - 1].val)
  }

  /** `force` followed by `value`. */
  function Force(v: Value): (r: Result<Value>)
    ensures r.Ok? ==> !r.value.Thunk? && Size(r.value) <= Size(v)
    ensures !v.Thunk? ==> r == Ok(v)
  {
    match v
    case Thunk(_, None) => Err(ForceFailed)
    case Thunk(_, Some(w)) => Force(w)
    case _ => Ok(v)
  }

  /** `coerce_to_string(ThunksOnly)` */
  function Coerce(v: Value): Result<string> {
    var w :- Force(v);
    if w.Leaf? && w.leaf.Str? then Ok(w.leaf.s) else Err(NotCoercibleToString)
  }

  /** `select` */
  function Select(attrs: seq<Attr>, key: string): Option<Value> {
    if attrs == [] then None
    else if attrs[0].key == key then Some(attrs[0].val)
    else Select(attrs[1..], key)
  }

  function Ulp(m: nat): (u: nat)
    ensures u >= 1
  {
    if m < 0x20_0000_0000_0000 then 1 else 2 * Ulp(m / 2)
  }

  /** `i as f64`: the nearest multiple of the unit in the last place, ties to even. */
  function AsFloat(i: int): int {
    var m := if i < 0 then -i else i;
    var u := Ulp(m);
    var q := if 2 * (m % u) > u || (2 * (m % u) == u && m / u % 2 == 1) then m / u + 1 else m / u;
    if i < 0 then -(q * u) else q * u
  }

  /** `Value::nix_eq` on what is neither list, attribute set nor thunk. */
  function LeafEq(a: Leaf, b: Leaf): bool {
    match (a, b)
    case (Null, Null) => true
    case (Bool(x), Bool(y)) => x == y
    case (Str(x), Str(y)) => x == y
    case (Path(x), Path(y)) => x == y
    case (Int(x), Int(y)) => x == y
    case (Int(x), Float(y)) => y == Finite(AsFloat(x) as real)
    case (Float(x), Float(y)) => x == y && x != NaN
    case (Float(x), Int(y)) => x == Finite(AsFloat(y) as real)
    case _ => false
  }

  /** Do both sets call themselves derivations? */
  function BothDerivations(a1: seq<Attr>, a2: seq<Attr>): Result<bool> {
    match (Select(a1, "type"), Select(a2, "type"))
    case (Some(t1), Some(t2)) =>
      var s1 :- Coerce(t1);
      if s1 != "derivation" then Ok(false)
      else
        var s2 :- Coerce(t2);
        Ok(s2 == "derivation")
    case _ => Ok(false)
  }

  function OutPath(attrs: seq<Attr>): Result<string> {
    match Select(attrs, "outPath")
    case None => Err(NoOutPath)
    case Some(v) => Coerce(v)
  }

  predicate SameKeys(a1: seq<Attr>, a2: seq<Attr>) {
    |a1| == |a2| && forall k :: 0 <= k < |a1| ==> a1[k].key == a2[k].key
  }

  function Values(attrs: seq<Attr>): (vs: seq<Value>)
    ensures |vs| == |attrs|
    ensures forall k :: 0 <= k < |vs| ==> vs[k] == attrs[k].val
    ensures SizeAll(vs) == SizeAttrs(attrs)
  {
    if attrs == [] then [] else
      var front := Values(attrs[..|attrs| - 1]);
      var vs := front + [attrs[|attrs| - 1].val];
      assert vs[..|attrs| - 1] == front;
      vs
  }

  /** The comparison as a recursion. `top` allows pointer equality on thunks at every level;
      `inside` says that the operands come from within a list or an attribute set. */
  function Compare(v1: Value, v2: Value, top: bool, inside: bool): Result<bool>
    decreases Size(v1), 2
  {
    if top && v1.Thunk? && v2.Thunk? && v1.ptr == v2.ptr then Ok(true)
    else
      var w2 :- Force(v2);
      var w1 :- Force(v1);
      CompareForced(w1, w2, top, inside)
  }

  function CompareForced(w1: Value, w2: Value, top: bool, inside: bool): Result<bool>
    decreases Size(w1), 1
  {
    match (w1, w2)
    case (List(p1, l1), List(p2, l2)) =>
      if p1 == p2 then Ok(true)
      else if |l1| != |l2| then Ok(false)
      else CompareAll(l1, l2, top, true)
    case (Attrs(p1, a1), Attrs(p2, a2)) =>
      if inside && p1 == p2 then Ok(true) else CompareSets(a1, a2, top)
    case (Closure(p1), Closure(p2)) => Ok(inside && p1 == p2)
    case (Leaf(x), Leaf(y)) => Ok(LeafEq(x, y))
    case _ => Ok(false)
  }

  /** Two derivations are equal if their output paths are; other sets need the same keys
      and equal values. */
  function CompareSets(a1: seq<Attr>, a2: seq<Attr>, top: bool): Result<bool>
    decreases 1 + SizeAttrs(a1), 0
  {
    var derivations :- BothDerivations(a1, a2);
    if derivations then
      var o1 :- OutPath(a1);
      var o2 :- OutPath(a2);
      Ok(o1 == o2)
    else if !SameKeys(a1, a2) then Ok(false)
    else CompareAll(Values(a1), Values(a2), top, true)
  }

  /** The worklist is last in, first out, so the last elements are compared first. */
  function CompareAll(l1: seq<Value>, l2: seq<Value>, top: bool, inside: bool): Result<bool>
    requires |l1| == |l2|
    decreases SizeAll(l1), 3
  {
    var n := |l1|;
    if n == 0 then Ok(true)
    else
      var last :- Compare(l1[n - 1], l2[n - 1], top, inside);
      if last then CompareAll(l1[..n - 1], l2[..n - 1], top, inside) else Ok(false)
  }
}
