// The rules of equality, told by what lies in the values: by keys, texts and numbers.
module NixRules {
  import opened Common
  import opened NixEquality
  import opened Doubles

  /** Forcing `v` ends at `w`. */
  ghost predicate ForcedTo(v: Value, w: Value) {
    if v.Thunk? then v.outcome.Some? && ForcedTo(v.outcome.value, w) else v == w
  }

  /** Forcing `v` ends in an error. */
  ghost predicate Broken(v: Value) {
    v.Thunk? && (v.outcome.None? || Broken(v.outcome.value))
  }

  lemma {:induction false} ForceIs(v: Value, w: Value)
    requires !w.Thunk?
    ensures Force(v) == Ok(w) <==> ForcedTo(v, w)
    ensures Force(v) == Err(ForceFailed) <==> Broken(v)
    ensures Force(v).Ok? || Force(v) == Err(ForceFailed)
  {
    match v
    case Thunk(_, Some(u)) => ForceIs(u, w);
    case _ =>
  }

  /** The values decide, in thunks or not, but for one thunk on both sides. */
  lemma ThunksCompare(v1: Value, v2: Value, w1: Value, w2: Value, top: bool, inside: bool)
    requires ForcedTo(v1, w1) && ForcedTo(v2, w2) && !w1.Thunk? && !w2.Thunk?
    ensures Compare(v1, v2, top, inside)
         == if top && v1.Thunk? && v2.Thunk? && v1.ptr == v2.ptr then Ok(true) else Compare(w1, w2, top, inside)
  {
    ForceIs(v1, w1);
    ForceIs(v2, w2);
    hide Force, CompareForced;
    assert Force(w1) == Ok(w1) && Force(w2) == Ok(w2);
  }

  lemma BrokenFails(v1: Value, v2: Value, top: bool, inside: bool)
    requires Broken(v1) || Broken(v2)
    requires !(top && v1.Thunk? && v2.Thunk? && v1.ptr == v2.ptr)
    ensures Compare(v1, v2, top, inside) == Err(ForceFailed)
  {
    ForceIs(v1, Closure(0));
    ForceIs(v2, Closure(0));
    hide Force, CompareForced;
  }

  // ---- Leaves

  /** Two leaves of one kind compare by what they hold; builtins are never equal. */
  lemma Texts(s: string, t: string, top: bool, inside: bool)
    ensures Compare(Leaf(Str(s)), Leaf(Str(t)), top, inside) == Ok(s == t)
    ensures Compare(Leaf(Path(s)), Leaf(Path(t)), top, inside) == Ok(s == t)
    ensures Compare(Leaf(Builtin(s)), Leaf(Builtin(t)), top, inside) == Ok(false)
  {}

  lemma Truths(b: bool, c: bool, top: bool, inside: bool)
    ensures Compare(Leaf(Bool(b)), Leaf(Bool(c)), top, inside) == Ok(b == c)
    ensures Compare(Leaf(Null), Leaf(Null), top, inside) == Ok(true)
  {}

  lemma Numbers(i: int, j: int, x: real, y: real, top: bool, inside: bool)
    ensures Compare(Leaf(Int(i)), Leaf(Int(j)), top, inside) == Ok(i == j)
    ensures Compare(Leaf(Float(Finite(x))), Leaf(Float(Finite(y))), top, inside) == Ok(x == y)
  {}

  lemma NaNDiffers(l: Leaf, top: bool, inside: bool)
    ensures Compare(Leaf(Float(NaN)), Leaf(l), top, inside) == Ok(false)
    ensures Compare(Leaf(l), Leaf(Float(NaN)), top, inside) == Ok(false)
  {}

  /** Main result: an integer and a float are equal exactly if the float is the nearest double. */
  lemma MixedNumbers(i: int, x: real, top: bool, inside: bool) returns (n: int)
    ensures Nearest(i, n)
    ensures Compare(Leaf(Int(i)), Leaf(Float(Finite(x))), top, inside) == Ok(x == n as real)
    ensures Compare(Leaf(Float(Finite(x))), Leaf(Int(i)), top, inside) == Ok(x == n as real)
  {
    AsFloatIsNearest(i);
    hide Nearest, AsFloat;
    n := AsFloat(i);
  }

  predicate OneKind(a: Leaf, b: Leaf) {
    match (a, b)
    case (Null, Null) => true
    case (Bool(_), Bool(_)) => true
    case (Str(_), Str(_)) => true
    case (Path(_), Path(_)) => true
    case _ => (a.Int? || a.Float?) && (b.Int? || b.Float?)
  }

  lemma KindsDiffer(a: Leaf, b: Leaf, top: bool, inside: bool)
    requires !OneKind(a, b)
    ensures Compare(Leaf(a), Leaf(b), top, inside) == Ok(false)
  {}

  /** Functions are equal to themselves only inside a structure; values of different shapes differ. */
  lemma Shapes(w1: Value, w2: Value, top: bool, inside: bool)
    requires !w1.Thunk? && !w2.Thunk?
    requires !(w1.Leaf? && w2.Leaf?) && !(w1.List? && w2.List?) && !(w1.Attrs? && w2.Attrs?)
    ensures Compare(w1, w2, top, inside) == Ok(w1.Closure? && w2.Closure? && inside && w1.ptr == w2.ptr)
  {}

  // ---- Lists

  /** All from index `k` on are equal. */
  ghost predicate EqualFrom(l1: seq<Value>, l2: seq<Value>, top: bool, k: nat)
    requires |l1| == |l2|
  {
    forall i :: k <= i < |l1| ==> Compare(l1[i], l2[i], top, true) == Ok(true)
  }

  /** The last elements that are not equal decide, also about failing. */
  lemma {:induction false} LastDecides(l1: seq<Value>, l2: seq<Value>, top: bool, k: nat)
    requires k < |l1| == |l2| && EqualFrom(l1, l2, top, k + 1) && Compare(l1[k], l2[k], top, true) != Ok(true)
    ensures CompareAll(l1, l2, top, true) == Compare(l1[k], l2[k], top, true)
  {
    hide Compare;
    var n := |l1| - 1;
    if k < n {
      assert Compare(l1[n], l2[n], top, true) == Ok(true);
      LastDecides(l1[..n], l2[..n], top, k);
    }
  }

  lemma {:induction false} AllEqual(l1: seq<Value>, l2: seq<Value>, top: bool)
    requires |l1| == |l2| && EqualFrom(l1, l2, top, 0)
    ensures CompareAll(l1, l2, top, true) == Ok(true)
  {
    hide Compare;
    if l1 != [] {
      var n := |l1| - 1;
      assert Compare(l1[n], l2[n], top, true) == Ok(true);
      AllEqual(l1[..n], l2[..n], top);
    }
  }

  /** What comparing two rows of values gives. */
  ghost predicate RowsGive(l1: seq<Value>, l2: seq<Value>, top: bool, r: Result<bool>)
    requires |l1| == |l2|
  {
    && (EqualFrom(l1, l2, top, 0) ==> r == Ok(true))
    && (forall k :: 0 <= k < |l1| && EqualFrom(l1, l2, top, k + 1) && Compare(l1[k], l2[k], top, true) != Ok(true)
          ==> r == Compare(l1[k], l2[k], top, true))
  }

  lemma Rows(l1: seq<Value>, l2: seq<Value>, top: bool)
    requires |l1| == |l2|
    ensures RowsGive(l1, l2, top, CompareAll(l1, l2, top, true))
  {
    hide Compare, CompareAll, EqualFrom;
    if EqualFrom(l1, l2, top, 0) {
      AllEqual(l1, l2, top);
    }
    forall k | 0 <= k < |l1| && EqualFrom(l1, l2, top, k + 1) && Compare(l1[k], l2[k], top, true) != Ok(true)
      ensures CompareAll(l1, l2, top, true) == Compare(l1[k], l2[k], top, true)
    {
      LastDecides(l1, l2, top, k);
    }
  }

  lemma Lists(p1: nat, p2: nat, l1: seq<Value>, l2: seq<Value>, top: bool, inside: bool)
    ensures var r := Compare(List(p1, l1), List(p2, l2), top, inside);
      if p1 == p2 then r == Ok(true)
      else if |l1| != |l2| then r == Ok(false)
      else RowsGive(l1, l2, top, r)
  {
    if |l1| == |l2| {
      Rows(l1, l2, top);
    }
    hide RowsGive, CompareAll;
  }

  // ---- Attribute sets

  ghost predicate OneEach(attrs: seq<Attr>) {
    forall i, j :: 0 <= i < j < |attrs| ==> attrs[i].key != attrs[j].key
  }

  ghost predicate HasKey(attrs: seq<Attr>, key: string) {
    exists a :: a in attrs && a.key == key
  }

  lemma {:induction false} SelectIs(attrs: seq<Attr>, key: string, v: Value)
    requires OneEach(attrs)
    ensures Select(attrs, key) == Some(v) <==> Attr(key, v) in attrs
    ensures Select(attrs, key) == None <==> !HasKey(attrs, key)
  {
    if attrs != [] {
      assert forall i :: 0 <= i < |attrs| - 1 ==> attrs[1..][i] == attrs[i + 1];
      SelectIs(attrs[1..], key, v);
      assert forall a :: a in attrs <==> a == attrs[0] || a in attrs[1..];
      if attrs[0].key == key {
        assert attrs[0] in attrs;
        forall a | a in attrs[1..] ensures a.key != key {
          var i :| 0 <= i < |attrs| - 1 && attrs[1..][i] == a;
          assert attrs[0].key != attrs[i + 1].key;
        }
      } else {
        assert HasKey(attrs, key) <==> HasKey(attrs[1..], key);
      }
    }
  }

  /** The attribute is there, and it is this text when it has been forced. */
  ghost predicate HasText(attrs: seq<Attr>, key: string, text: string) {
    exists v :: Attr(key, v) in attrs && ForcedTo(v, Leaf(Str(text)))
  }

  /** A value that is no text. */
  ghost predicate NoText(w: Value) {
    !w.Thunk? && !(w.Leaf? && w.leaf.Str?)
  }

  /** Why the value cannot be read as a text: forcing it fails, or gives something else. */
  ghost predicate Unreadable(v: Value, p: Problem) {
    (p.ForceFailed? && Broken(v)) || (p.NotCoercibleToString? && exists w :: NoText(w) && ForcedTo(v, w))
  }

  /** The attribute is there, and cannot be read as a text. */
  ghost predicate HasNoText(attrs: seq<Attr>, key: string, p: Problem) {
    exists v :: Attr(key, v) in attrs && Unreadable(v, p)
  }

  lemma CoerceIs(v: Value, text: string, p: Problem)
    ensures Coerce(v) == Ok(text) <==> ForcedTo(v, Leaf(Str(text)))
    ensures Coerce(v) == Err(p) <==> Unreadable(v, p)
  {
    ForceIs(v, Leaf(Str(text)));
    forall w ensures NoText(w) ==> (Force(v) == Ok(w) <==> ForcedTo(v, w)) {
      if NoText(w) {
        ForceIs(v, w);
      }
    }
    hide ForcedTo, Broken;
    if Force(v).Ok? && NoText(Force(v).value) {
      assert ForcedTo(v, Force(v).value);
    }
  }

  lemma TextIs(attrs: seq<Attr>, key: string, text: string, p: Problem)
    requires OneEach(attrs)
    ensures HasText(attrs, key, text) <==> Select(attrs, key).Some? && Coerce(Select(attrs, key).value) == Ok(text)
    ensures HasNoText(attrs, key, p) <==> Select(attrs, key).Some? && Coerce(Select(attrs, key).value) == Err(p)
  {
    hide Select, Coerce, ForcedTo, OneEach, Unreadable;
    forall v ensures Attr(key, v) in attrs <==> Select(attrs, key) == Some(v) {
      SelectIs(attrs, key, v);
    }
    forall v ensures Coerce(v) == Ok(text) <==> ForcedTo(v, Leaf(Str(text))) ensures Coerce(v) == Err(p) <==> Unreadable(v, p) {
      CoerceIs(v, text, p);
    }
  }

  lemma CompareIsSets(p1: nat, p2: nat, a1: seq<Attr>, a2: seq<Attr>, top: bool, inside: bool)
    requires !(inside && p1 == p2)
    ensures Compare(Attrs(p1, a1), Attrs(p2, a2), top, inside) == CompareSets(a1, a2, top)
  {
    hide CompareSets;
  }

  ghost predicate IsDerivation(attrs: seq<Attr>) {
    HasText(attrs, "type", "derivation")
  }

  /** Main result: two derivations at different addresses are equal exactly if their output paths
      are the same text, whatever else they hold; without an output path the program ends, and one
      that is no text is an error. */
  lemma Derivations(p1: nat, p2: nat, a1: seq<Attr>, a2: seq<Attr>, o1: string, o2: string, e: Problem, top: bool, inside: bool)
    requires OneEach(a1) && OneEach(a2) && IsDerivation(a1) && IsDerivation(a2) && !(inside && p1 == p2)
    ensures var r := Compare(Attrs(p1, a1), Attrs(p2, a2), top, inside);
      && (HasText(a1, "outPath", o1) && HasText(a2, "outPath", o2) ==> r == Ok(o1 == o2))
      && (!HasKey(a1, "outPath") ==> r == Err(NoOutPath))
      && (HasNoText(a1, "outPath", e) ==> r == Err(e))
      && (HasText(a1, "outPath", o1) && !HasKey(a2, "outPath") ==> r == Err(NoOutPath))
      && (HasText(a1, "outPath", o1) && HasNoText(a2, "outPath", e) ==> r == Err(e))
  {
    TextIs(a1, "type", "derivation", e);
    TextIs(a2, "type", "derivation", e);
    TextIs(a1, "outPath", o1, e);
    TextIs(a2, "outPath", o2, e);
    SelectIs(a1, "outPath", Closure(0));
    SelectIs(a2, "outPath", Closure(0));
    CompareIsSets(p1, p2, a1, a2, top, inside);
    hide HasText, HasNoText, HasKey, Select, CompareAll, OneEach, Coerce, Compare;
    assert BothDerivations(a1, a2) == Ok(true);
  }

  /** The first set has a type that is a text and not `derivation`, or one of them has no type, or
      only the second is a text that is not `derivation`. */
  ghost predicate NoTwoDerivations(a1: seq<Attr>, a2: seq<Attr>) {
    || !HasKey(a1, "type") || !HasKey(a2, "type")
    || (exists t :: t != "derivation" && HasText(a1, "type", t))
    || (IsDerivation(a1) && exists t :: t != "derivation" && HasText(a2, "type", t))
  }

  lemma NotBoth(a1: seq<Attr>, a2: seq<Attr>)
    requires OneEach(a1) && OneEach(a2) && NoTwoDerivations(a1, a2)
    ensures BothDerivations(a1, a2) == Ok(false)
  {
    SelectIs(a1, "type", Closure(0));
    SelectIs(a2, "type", Closure(0));
    TextIs(a1, "type", "derivation", ForceFailed);
    hide Select, Coerce, HasNoText, OneEach, HasKey;
    if t :| t != "derivation" && HasText(a1, "type", t) {
      TextIs(a1, "type", t, ForceFailed);
    } else if t :| t != "derivation" && HasText(a2, "type", t) {
      TextIs(a2, "type", t, ForceFailed);
    }
    hide HasText;
  }

  /** Main result: other sets need the same keys, and equal values for each. */
  lemma OtherSets(p1: nat, p2: nat, a1: seq<Attr>, a2: seq<Attr>, top: bool, inside: bool)
    requires OneEach(a1) && OneEach(a2) && NoTwoDerivations(a1, a2) && !(inside && p1 == p2)
    ensures var r := Compare(Attrs(p1, a1), Attrs(p2, a2), top, inside);
      if |a1| != |a2| || exists k :: 0 <= k < |a1| && a1[k].key != a2[k].key then r == Ok(false)
      else RowsGive(Values(a1), Values(a2), top, r)
  {
    NotBoth(a1, a2);
    if SameKeys(a1, a2) {
      Rows(Values(a1), Values(a2), top);
    }
    CompareIsSets(p1, p2, a1, a2, top, inside);
    hide Compare, RowsGive, CompareAll, BothDerivations, NoTwoDerivations, OneEach;
  }

  /** A type that cannot be read is an error, if the comparison gets to it. */
  lemma TypeFails(p1: nat, p2: nat, a1: seq<Attr>, a2: seq<Attr>, e: Problem, top: bool, inside: bool)
    requires OneEach(a1) && OneEach(a2) && HasKey(a1, "type") && HasKey(a2, "type") && !(inside && p1 == p2)
    requires HasNoText(a1, "type", e) || (IsDerivation(a1) && HasNoText(a2, "type", e))
    ensures Compare(Attrs(p1, a1), Attrs(p2, a2), top, inside) == Err(e)
  {
    SelectIs(a1, "type", Closure(0));
    SelectIs(a2, "type", Closure(0));
    TextIs(a1, "type", "derivation", e);
    TextIs(a2, "type", "derivation", e);
    CompareIsSets(p1, p2, a1, a2, top, inside);
    hide HasText, HasNoText, HasKey, Select, Coerce, Compare, CompareAll, OneEach;
    assert BothDerivations(a1, a2) == Err(e);
  }

  /** Inside a structure, one address is enough. */
  lemma OneAddress(p: nat, a1: seq<Attr>, a2: seq<Attr>, top: bool)
    ensures Compare(Attrs(p, a1), Attrs(p, a2), top, true) == Ok(true)
  {}
}
