// What the comparison of Nix values means when nothing fails: structural equality, with
// pointers mattering for functions only. Every shortcut on equal addresses is sound.
module NixMeaning {
  import opened Common
  import opened NixEquality

  ghost predicate Derivation(attrs: seq<Attr>) {
    match Select(attrs, "type")
    case Some(t) => Coerce(t) == Ok("derivation")
    case None => false
  }

  /** Structural equality. Functions are equal only to themselves, and only within a list or
      an attribute set; derivations are as equal as their output paths. */
  ghost predicate Same(v1: Value, v2: Value, inside: bool)
    decreases Size(v1), 2
  {
    Force(v1).Ok? && Force(v2).Ok? && SameForced(Force(v1).value, Force(v2).value, inside)
  }

  ghost predicate SameForced(w1: Value, w2: Value, inside: bool)
    decreases Size(w1), 1
  {
    if w1.List? && w2.List? then SameAll(w1.items, w2.items)
    else if w1.Attrs? && w2.Attrs? then
      if Derivation(w1.attrs) && Derivation(w2.attrs) then OutPath(w1.attrs) == OutPath(w2.attrs)
      else SameKeys(w1.attrs, w2.attrs) && SameAll(Values(w1.attrs), Values(w2.attrs))
    else if w1.Closure? && w2.Closure? then inside && w1.ptr == w2.ptr
    else w1.Leaf? && w2.Leaf? && LeafEq(w1.leaf, w2.leaf)
  }

  /** The elements are equal, position by position. */
  ghost predicate SameAll(l1: seq<Value>, l2: seq<Value>)
    decreases SizeAll(l1), 3
  {
    |l1| == |l2| && (l1 != [] ==> Same(l1[|l1| - 1], l2[|l2| - 1], true) && SameAll(l1[..|l1| - 1], l2[..|l2| - 1]))
  }

  lemma {:induction false} SameAllEach(l1: seq<Value>, l2: seq<Value>)
    ensures SameAll(l1, l2) <==> |l1| == |l2| && forall k :: 0 <= k < |l1| ==> Same(l1[k], l2[k], true)
  {
    hide Same;
    if l1 != [] && |l1| == |l2| {
      SameAllEach(l1[..|l1| - 1], l2[..|l2| - 1]);
    }
  }

  /** Nothing that the comparison may look at fails: thunks evaluate, `type` attributes are
      strings, and derivations have an output path. */
  ghost predicate Tame(v: Value)
    decreases Size(v), 1
  {
    match v
    case Thunk(_, None) => false
    case Thunk(_, Some(w)) => Tame(w)
    case List(_, l) => TameAll(l)
    case Attrs(_, a) =>
      && TameAll(Values(a))
      && (Select(a, "type").Some? ==> Coerce(Select(a, "type").value).Ok?)
      && (Derivation(a) ==> OutPath(a).Ok?)
    case _ => true
  }

  ghost predicate TameAll(vs: seq<Value>)
    decreases SizeAll(vs), 2
  {
    vs != [] ==> Tame(vs[|vs| - 1]) && TameAll(vs[..|vs| - 1])
  }

  /** Every leaf that the meaning looks at is equal to itself: no NaN and no builtin function,
      but in derivations, which are as equal as their output paths. */
  ghost predicate SelfEqual(v: Value)
    decreases Size(v), 1
  {
    match v
    case Thunk(_, None) => true
    case Thunk(_, Some(w)) => SelfEqual(w)
    case List(_, l) => SelfEqualAll(l)
    case Attrs(_, a) => Derivation(a) || SelfEqualAll(Values(a))
    case Leaf(l) => l != Float(NaN) && !l.Builtin?
    case Closure(_) => true
  }

  ghost predicate SelfEqualAll(vs: seq<Value>)
    decreases SizeAll(vs), 2
  {
    vs != [] ==> SelfEqual(vs[|vs| - 1]) && SelfEqualAll(vs[..|vs| - 1])
  }

  /** What lies at each address. */
  datatype Heap = Heap(lists: map<nat, seq<Value>>, sets: map<nat, seq<Attr>>, thunks: map<nat, Option<Value>>)

  /** `v` points into `h`, so equal addresses within such values mean equal contents. */
  ghost predicate Allocated(h: Heap, v: Value)
    decreases Size(v), 1
  {
    match v
    case List(p, l) => p in h.lists && h.lists[p] == l && AllAllocated(h, l)
    case Attrs(p, a) => p in h.sets && h.sets[p] == a && AllAllocated(h, Values(a))
    case Thunk(p, o) => p in h.thunks && h.thunks[p] == o && (o.Some? ==> Allocated(h, o.value))
    case _ => true
  }

  ghost predicate AllAllocated(h: Heap, vs: seq<Value>)
    decreases SizeAll(vs), 2
  {
    vs != [] ==> Allocated(h, vs[|vs| - 1]) && AllAllocated(h, vs[..|vs| - 1])
  }

  lemma {:induction false} Forced(h: Heap, v: Value)
    requires Tame(v)
    ensures Force(v).Ok? && Tame(Force(v).value)
    ensures SelfEqual(v) ==> SelfEqual(Force(v).value)
    ensures Allocated(h, v) ==> Allocated(h, Force(v).value)
    ensures Force(Force(v).value) == Force(v)
  {
    match v
    case Thunk(_, Some(w)) => Forced(h, w);
    case _ =>
  }

  lemma LeafReflexive(l: Leaf)
    ensures LeafEq(l, l) <==> l != Float(NaN) && !l.Builtin?
  {}

  lemma {:induction false} ForcedSelf(v: Value)
    requires Tame(v)
    ensures Force(v).Ok? && (SelfEqual(Force(v).value) <==> SelfEqual(v))
    ensures Size(Force(v).value) <= Size(v)
  {
    match v
    case Thunk(_, Some(w)) => ForcedSelf(w);
    case _ =>
  }

  /** Inside a structure, exactly these values equal themselves. */
  lemma {:induction false} Reflexive(v: Value)
    requires Tame(v)
    ensures Same(v, v, true) <==> SelfEqual(v)
    decreases Size(v), 1
  {
    Forced(Heap(map[], map[], map[]), v);
    ForcedSelf(v);
    hide Force, Select, LeafEq, Coerce, Derivation, OutPath;
    match Force(v).value
    case List(_, l) => ReflexiveAll(l);
    case Attrs(_, a) => ReflexiveAll(Values(a));
    case Leaf(l) => LeafReflexive(l);
    case Closure(_) =>
  }

  lemma {:induction false} ReflexiveAll(vs: seq<Value>)
    requires TameAll(vs)
    ensures SameAll(vs, vs) <==> SelfEqualAll(vs)
    decreases SizeAll(vs), 2
  {
    if vs != [] {
      Reflexive(vs[|vs| - 1]);
      ReflexiveAll(vs[..|vs| - 1]);
    }
  }

  /** The conditions under which the comparison can be read structurally. */
  ghost predicate Readable(h: Heap, v1: Value, v2: Value) {
    && Tame(v1) && Tame(v2) && Allocated(h, v1) && Allocated(h, v2)
    && (SelfEqual(v1) || SelfEqual(v2))
  }

  ghost predicate AllReadable(h: Heap, l1: seq<Value>, l2: seq<Value>) {
    && TameAll(l1) && TameAll(l2) && AllAllocated(h, l1) && AllAllocated(h, l2)
    && (SelfEqualAll(l1) || SelfEqualAll(l2))
  }

  /** Main result: the comparison terminates without an error and decides structural
      equality, whichever of its shortcuts on equal addresses it has taken. */
  lemma {:induction false} CompareMeans(h: Heap, v1: Value, v2: Value, top: bool, inside: bool)
    requires Readable(h, v1, v2) && (top ==> inside)
    ensures Compare(v1, v2, top, inside) == Ok(Same(v1, v2, inside))
    decreases Size(v1), 2
  {
    Forced(h, v1);
    Forced(h, v2);
    hide Force, SelfEqual, Tame, Allocated, CompareForced, SameForced;
    if top && v1.Thunk? && v2.Thunk? && v1.ptr == v2.ptr {
      SharedThunk(h, v1, v2);
    } else {
      CompareForcedMeans(h, Force(v1).value, Force(v2).value, top, inside);
    }
  }

  /** One thunk, one value. */
  lemma SharedThunk(h: Heap, v1: Value, v2: Value)
    requires Readable(h, v1, v2) && v1.Thunk? && v2.Thunk? && v1.ptr == v2.ptr
    ensures Same(v1, v2, true)
  {
    assert v1 == v2;
    Reflexive(v1);
  }

  lemma {:induction false} CompareForcedMeans(h: Heap, w1: Value, w2: Value, top: bool, inside: bool)
    requires Readable(h, w1, w2) && !w1.Thunk? && !w2.Thunk? && (top ==> inside)
    ensures CompareForced(w1, w2, top, inside) == Ok(SameForced(w1, w2, inside))
    decreases Size(w1), 1
  {
    hide Force, LeafEq, Select, BothDerivations, Derivation, OutPath, Coerce, CompareSets, CompareAll, SameAll;
    if w1.List? && w2.List? {
      SharedContents(h, w1, w2);
      if w1.ptr != w2.ptr && |w1.items| == |w2.items| {
        CompareAllMeans(h, w1.items, w2.items, top);
      }
      SameLength(w1.items, w2.items);
    } else if w1.Attrs? && w2.Attrs? {
      SharedContents(h, w1, w2);
      if !(inside && w1.ptr == w2.ptr) {
        CompareSetsMeans(h, w1, w2, top, inside);
      }
    }
  }

  lemma SameLength(l1: seq<Value>, l2: seq<Value>)
    ensures SameAll(l1, l2) ==> |l1| == |l2|
  {}

  /** Two lists, or two sets, at one address have the same contents and equal each other. */
  lemma SharedContents(h: Heap, w1: Value, w2: Value)
    requires Readable(h, w1, w2)
    requires (w1.List? && w2.List?) || (w1.Attrs? && w2.Attrs?)
    ensures w1.ptr == w2.ptr ==> SameForced(w1, w2, true)
    ensures w1.List? && w1.ptr == w2.ptr ==> SameForced(w1, w2, false)
  {
    if w1.ptr == w2.ptr {
      assert w1 == w2;
      Reflexive(w1);
    }
  }

  lemma {:induction false} CompareSetsMeans(h: Heap, w1: Value, w2: Value, top: bool, inside: bool)
    requires Readable(h, w1, w2) && w1.Attrs? && w2.Attrs?
    ensures CompareSets(w1.attrs, w2.attrs, top) == Ok(SameForced(w1, w2, inside))
    decreases Size(w1), 0
  {
    hide Select, OutPath, Coerce, CompareAll;
    var (a1, a2) := (w1.attrs, w2.attrs);
    BothTame(w1, w2);
    if SameKeys(a1, a2) && Derivation(a1) != Derivation(a2) {
      OneDerivation(h, w1, w2, top);
    } else if SameKeys(a1, a2) && !Derivation(a1) {
      CompareAllMeans(h, Values(a1), Values(a2), top);
    }
  }

  /** Comparing what can be read never fails, shortcuts or not. */
  lemma {:induction false} NeverFails(v1: Value, v2: Value, top: bool, inside: bool)
    requires Tame(v1) && Tame(v2)
    ensures Compare(v1, v2, top, inside).Ok?
    decreases Size(v1), 2
  {
    var h := Heap(map[], map[], map[]);
    Forced(h, v1);
    Forced(h, v2);
    hide Force, Select, LeafEq, Coerce, Derivation, OutPath, BothDerivations;
    var (w1, w2) := (Force(v1).value, Force(v2).value);
    if w1.List? && w2.List? && |w1.items| == |w2.items| {
      NoneFails(w1.items, w2.items, top);
    } else if w1.Attrs? && w2.Attrs? {
      SetsNeverFail(w1, w2, top);
      hide CompareSets;
    }
  }

  lemma {:induction false} SetsNeverFail(w1: Value, w2: Value, top: bool)
    requires Tame(w1) && Tame(w2) && w1.Attrs? && w2.Attrs?
    ensures CompareSets(w1.attrs, w2.attrs, top).Ok?
    decreases Size(w1), 0
  {
    BothTame(w1, w2);
    if SameKeys(w1.attrs, w2.attrs) {
      NoneFails(Values(w1.attrs), Values(w2.attrs), top);
    }
    hide Select, LeafEq, Coerce, Derivation, OutPath, BothDerivations, CompareAll;
  }

  lemma {:induction false} NoneFails(l1: seq<Value>, l2: seq<Value>, top: bool)
    requires TameAll(l1) && TameAll(l2) && |l1| == |l2|
    ensures CompareAll(l1, l2, top, true).Ok?
    decreases SizeAll(l1), 3
  {
    if l1 != [] {
      hide Compare, Tame;
      NeverFails(l1[|l1| - 1], l2[|l2| - 1], top, true);
      NoneFails(l1[..|l1| - 1], l2[..|l2| - 1], top);
    }
  }

  lemma {:induction false} OneDiffers(l1: seq<Value>, l2: seq<Value>, top: bool, k: nat)
    requires TameAll(l1) && TameAll(l2) && k < |l1| == |l2| && Compare(l1[k], l2[k], top, true) == Ok(false)
    ensures CompareAll(l1, l2, top, true) == Ok(false)
  {
    hide Compare, Tame;
    var n := |l1| - 1;
    NeverFails(l1[n], l2[n], top, true);
    if k < n {
      OneDiffers(l1[..n], l2[..n], top, k);
    }
  }

  lemma {:induction false} AllOf(h: Heap, vs: seq<Value>, k: nat)
    requires k < |vs|
    ensures TameAll(vs) ==> Tame(vs[k])
    ensures AllAllocated(h, vs) ==> Allocated(h, vs[k])
  {
    hide Tame, Allocated;
    if k < |vs| - 1 {
      AllOf(h, vs[..|vs| - 1], k);
    }
  }

  lemma StringsDiffer(h: Heap, v1: Value, v2: Value, top: bool)
    requires Tame(v1) && Tame(v2) && Allocated(h, v1) && Allocated(h, v2)
    requires Coerce(v1).Ok? && Coerce(v2).Ok? && Coerce(v1) != Coerce(v2)
    ensures Compare(v1, v2, top, true) == Ok(false) && !Same(v1, v2, true)
  {
    Forced(h, v1);
    Forced(h, v2);
    hide Tame;
  }

  /** A derivation and another set of the same keys differ in their types, whatever else is in
      them. */
  lemma OneDerivation(h: Heap, w1: Value, w2: Value, top: bool)
    requires Tame(w1) && Tame(w2) && Allocated(h, w1) && Allocated(h, w2) && w1.Attrs? && w2.Attrs?
    requires SameKeys(w1.attrs, w2.attrs) && Derivation(w1.attrs) != Derivation(w2.attrs)
    ensures CompareAll(Values(w1.attrs), Values(w2.attrs), top, true) == Ok(false)
    ensures !SameAll(Values(w1.attrs), Values(w2.attrs))
  {
    var (a1, a2) := (w1.attrs, w2.attrs);
    var k := FirstKey(a1, a2, "type");
    var (l1, l2) := (Values(a1), Values(a2));
    AllOf(h, l1, k);
    AllOf(h, l2, k);
    hide Select, Coerce, Compare, Same, CompareAll, SameAll;
    StringsDiffer(h, l1[k], l2[k], top);
    OneDiffers(l1, l2, top, k);
    SameAllEach(l1, l2);
  }

  /** Sets with the same keys have an attribute at the same place. */
  lemma {:induction false} FirstKey(a1: seq<Attr>, a2: seq<Attr>, key: string) returns (k: nat)
    requires SameKeys(a1, a2) && (Select(a1, key).Some? || Select(a2, key).Some?)
    ensures k < |a1| && Select(a1, key) == Some(a1[k].val) && Select(a2, key) == Some(a2[k].val)
  {
    if a1[0].key == key {
      k := 0;
    } else {
      k := FirstKey(a1[1..], a2[1..], key);
      k := k + 1;
    }
  }

  lemma BothTame(w1: Value, w2: Value)
    requires Tame(w1) && Tame(w2) && w1.Attrs? && w2.Attrs?
    ensures BothDerivations(w1.attrs, w2.attrs) == Ok(Derivation(w1.attrs) && Derivation(w2.attrs))
    ensures Derivation(w1.attrs) ==> OutPath(w1.attrs).Ok?
    ensures Derivation(w2.attrs) ==> OutPath(w2.attrs).Ok?
  {
    hide Select, Coerce, OutPath;
  }

  lemma {:induction false} CompareAllMeans(h: Heap, l1: seq<Value>, l2: seq<Value>, top: bool)
    requires AllReadable(h, l1, l2) && |l1| == |l2|
    ensures CompareAll(l1, l2, top, true) == Ok(SameAll(l1, l2))
    decreases SizeAll(l1), 3
  {
    if l1 != [] {
      hide Compare, Same, Tame, SelfEqual, Allocated, Size;
      var n := |l1|;
      CompareMeans(h, l1[n - 1], l2[n - 1], top, true);
      CompareAllMeans(h, l1[..n - 1], l2[..n - 1], top);
    }
  }

  lemma LeafSymmetric(x: Leaf, y: Leaf)
    ensures LeafEq(x, y) == LeafEq(y, x)
  {}

  lemma {:induction false} Symmetric(v1: Value, v2: Value, inside: bool)
    ensures Same(v1, v2, inside) == Same(v2, v1, inside)
    decreases Size(v1), 1
  {
    hide LeafEq, Derivation, OutPath, SameAll;
    if Force(v1).Ok? && Force(v2).Ok? {
      var w1, w2 := Force(v1).value, Force(v2).value;
      if w1.List? && w2.List? {
        SymmetricAll(w1.items, w2.items);
      } else if w1.Attrs? && w2.Attrs? {
        SymmetricAll(Values(w1.attrs), Values(w2.attrs));
      } else if w1.Leaf? && w2.Leaf? {
        LeafSymmetric(w1.leaf, w2.leaf);
      }
    }
  }

  lemma {:induction false} SymmetricAll(l1: seq<Value>, l2: seq<Value>)
    ensures SameAll(l1, l2) == SameAll(l2, l1)
    decreases SizeAll(l1), 2
  {
    if l1 != [] && |l1| == |l2| {
      hide Same;
      Symmetric(l1[|l1| - 1], l2[|l2| - 1], true);
      SymmetricAll(l1[..|l1| - 1], l2[..|l2| - 1]);
    }
  }

  /** Main result: a value at one address is found equal to itself, inside a structure, whatever
      it holds; this is what the value means exactly if it is `SelfEqual`. */
  lemma SharedExactly(v: Value)
    requires Tame(v) && !v.Leaf? && !v.Closure?
    ensures Compare(v, v, true, true) == Ok(true)
    ensures Compare(v, v, true, true) == Ok(Same(v, v, true)) <==> SelfEqual(v)
  {
    Reflexive(v);
    hide Same, Tame, SelfEqual;
  }

  /** An instance: a list with NaN in it equals itself by address and is different from a copy
      of itself. */
  lemma SharedNaN(p: nat, q: nat, top: bool, inside: bool)
    requires p != q
    ensures var l := [Leaf(Float(NaN))];
      && Compare(List(p, l), List(p, l), top, inside) == Ok(true)
      && Compare(List(p, l), List(q, l), top, inside) == Ok(false)
  {
    var nan := Leaf(Float(NaN));
    assert Compare(nan, nan, top, true) == Ok(false);
    assert CompareAll([nan], [nan], top, true) == Ok(false);
    assert CompareForced(List(p, [nan]), List(q, [nan]), top, inside) == Ok(false);
  }
}
