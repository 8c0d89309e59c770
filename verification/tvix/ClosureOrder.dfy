// In which order `genericClosure` lists its results, and what it takes for keys.
module ClosureOrder {
  import opened Common
  import opened NixEquality
  import opened NixRules
  import opened GenericClosure

  /** The start set, and behind it what the operator yields on the results, result by result. */
  ghost function Lined(start: seq<Value>, op: Operator, res: seq<Value>): seq<Value> {
    if res == [] then start
    else
      var n := |res| - 1;
      Lined(start, op, res[..n]) + if op(res[n]).Ok? then op(res[n]).value else []
  }

  /** The first item of each key in the line, up to place `m`: `at` are their places, and every other
      item has the key of one of them that stands before it. */
  ghost predicate FirstOnes(line: seq<Value>, m: nat, res: seq<Value>, at: seq<nat>) {
    && m <= |line| && |at| == |res|
    && (forall k :: 0 <= k < |at| ==> at[k] < m && line[at[k]] == res[k])
    && (forall j, k :: 0 <= j < k < |at| ==> at[j] < at[k])
    && (forall i :: 0 <= i < m && i !in at ==> KnownBefore(line[i], i, res, at))
  }

  ghost predicate KnownBefore(v: Value, i: nat, res: seq<Value>, at: seq<nat>)
    requires |at| == |res|
  {
    exists k :: 0 <= k < |at| && at[k] < i && OneKey(res[k], v)
  }

  ghost predicate OneKey(r: Value, v: Value) {
    Key(r).Ok? && Key(v).Ok? && KeyEq(Key(r).value, Key(v).value) == Ok(true)
  }

  lemma KnownStays(v: Value, i: nat, res: seq<Value>, at: seq<nat>, r: Value, m: nat)
    requires |at| == |res| && KnownBefore(v, i, res, at)
    ensures KnownBefore(v, i, res + [r], at + [m])
  {
    hide OneKey;
    var k :| 0 <= k < |at| && at[k] < i && OneKey(res[k], v);
    assert (at + [m])[k] == at[k] && (res + [r])[k] == res[k];
  }

  /** An item with a known key is passed over. */
  lemma Passed(line: seq<Value>, m: nat, res: seq<Value>, at: seq<nat>, k: nat)
    requires FirstOnes(line, m, res, at) && m < |line| && k < |res| && OneKey(res[k], line[m])
    ensures FirstOnes(line, m + 1, res, at)
  {
    hide OneKey;
    assert at[k] < m;
    assert KnownBefore(line[m], m, res, at);
  }

  /** An item with a new key is taken, and the line gets longer. */
  lemma Taken(line: seq<Value>, m: nat, res: seq<Value>, at: seq<nat>, more: seq<Value>)
    requires FirstOnes(line, m, res, at) && m < |line|
    ensures FirstOnes(line + more, m + 1, res + [line[m]], at + [m])
  {
    var (line', res', at') := (line + more, res + [line[m]], at + [m]);
    hide KnownBefore;
    forall i | 0 <= i < m + 1 && i !in at' ensures KnownBefore(line'[i], i, res', at') {
      assert at'[|at|] == m && i != m;
      forall k | 0 <= k < |at| ensures at[k] != i {
        assert at'[k] == at[k];
      }
      KnownStays(line[i], i, res, at, line[m], m);
    }
  }

  lemma LinedMore(start: seq<Value>, op: Operator, res: seq<Value>, v: Value)
    requires op(v).Ok?
    ensures Lined(start, op, res + [v]) == Lined(start, op, res) + op(v).value
  {
    assert (res + [v])[..|res|] == res;
  }

  /** Where the loop is in the line. */
  ghost predicate At(start: seq<Value>, op: Operator, l: Loop, m: nat, at: seq<nat>) {
    l.Running? ==>
      && FirstOnes(Lined(start, op, l.res), m, l.res, at)
      && l.work == Lined(start, op, l.res)[m..]
      && KeysOf(l.res, l.doneKeys)
  }

  lemma SkipAt(start: seq<Value>, op: Operator, l: Loop, m: nat, at: seq<nat>)
    requires At(start, op, l, m, at) && l.Running? && l.work != [] && Key(l.work[0]).Ok?
    requires NewKey(l.doneKeys, Key(l.work[0]).value) == Ok(false)
    ensures At(start, op, l.(work := l.work[1..]), m + 1, at)
  {
    NewKeyMeans(l.doneKeys, Key(l.work[0]).value);
    hide Key, KeyEq, NewKey, Lined, FirstOnes;
    var i :| 0 <= i < |l.doneKeys| && KeyEq(l.doneKeys[i], Key(l.work[0]).value) == Ok(true);
    assert OneKey(l.res[i], l.work[0]);
    assert m < |Lined(start, op, l.res)| && Lined(start, op, l.res)[m] == l.work[0];
    Passed(Lined(start, op, l.res), m, l.res, at, i);
  }

  lemma TakeAt(start: seq<Value>, op: Operator, l: Loop, m: nat, at: seq<nat>)
    requires At(start, op, l, m, at) && l.Running? && l.work != [] && Key(l.work[0]).Ok? && op(l.work[0]).Ok?
    ensures var val := l.work[0];
      At(start, op, Running(l.work[1..] + op(val).value, l.res + [val], l.doneKeys + [Key(val).value]), m + 1, at + [m])
  {
    var (val, line) := (l.work[0], Lined(start, op, l.res));
    hide Key, Lined, FirstOnes;
    InLine(start, op, l, m, at);
    Taken(line, m, l.res, at, op(val).value);
    LinedMore(start, op, l.res, val);
    RestOfLine(line, m, op(val).value);
    KeysMore(l.res, l.doneKeys, val);
  }

  lemma InLine(start: seq<Value>, op: Operator, l: Loop, m: nat, at: seq<nat>)
    requires At(start, op, l, m, at) && l.Running? && l.work != []
    ensures var line := Lined(start, op, l.res); m < |line| && line[m] == l.work[0]
  {
    Inside(Lined(start, op, l.res), m, l.res, at);
    hide Lined, FirstOnes;
  }

  lemma RestOfLine(line: seq<Value>, m: nat, more: seq<Value>)
    requires m < |line|
    ensures line[m..][1..] + more == (line + more)[m + 1..]
  {}

  lemma KeysMore(res: seq<Value>, doneKeys: seq<Value>, val: Value)
    requires KeysOf(res, doneKeys) && Key(val).Ok?
    ensures KeysOf(res + [val], doneKeys + [Key(val).value])
  {
    hide Key;
  }

  lemma IteratedAt(start: seq<Value>, op: Operator, l: Loop, m: nat, at: seq<nat>) returns (m': nat, at': seq<nat>)
    requires At(start, op, l, m, at)
    ensures At(start, op, Iterated(op, l), m', at')
  {
    hide Key, NewKey;
    m', at' := m, at;
    if l.Running? && l.work != [] && Key(l.work[0]).Ok? {
      if NewKey(l.doneKeys, Key(l.work[0]).value) == Ok(false) {
        SkipAt(start, op, l, m, at);
        m' := m + 1;
      } else if NewKey(l.doneKeys, Key(l.work[0]).value) == Ok(true) && op(l.work[0]).Ok? {
        TakeAt(start, op, l, m, at);
        m', at' := m + 1, at + [m];
      }
    }
    hide At;
  }

  lemma {:induction false} AfterAt(start: seq<Value>, op: Operator, n: nat) returns (m: nat, at: seq<nat>)
    ensures At(start, op, After(start, op, n), m, at)
  {
    if n == 0 {
      m, at := 0, [];
    } else {
      hide At, Iterated;
      m, at := AfterAt(start, op, n - 1);
      m, at := IteratedAt(start, op, After(start, op, n - 1), m, at);
    }
  }

  /** Main result: the results are breadth first. They are the first items of each key, in their
      order, in the start set followed by what the operator yields on the first result, on the
      second, and so on. */
  lemma BreadthFirst(start: seq<Value>, op: Operator, res: seq<Value>) returns (at: seq<nat>)
    requires EndsWith(start, op, Ok(res))
    ensures var line := Lined(start, op, res); FirstOnes(line, |line|, res, at)
  {
    var n: nat :| Outcome(After(start, op, n), Ok(res));
    hide After;
    var m: nat;
    m, at := AfterAt(start, op, n);
    hide FirstOnes, Lined;
    var line := Lined(start, op, res);
    Inside(line, m, res, at);
    assert line[m..] == [];
  }

  lemma Inside(line: seq<Value>, m: nat, res: seq<Value>, at: seq<nat>)
    requires FirstOnes(line, m, res, at)
    ensures m <= |line|
  {}

  // ---- Keys

  /** The key of a set is its attribute `key`, as it is; a set without one, and what is no set, have
      none. */
  lemma KeyIs(v: Value, p: nat, attrs: seq<Attr>, k: Value)
    requires ForcedTo(v, Attrs(p, attrs)) && OneEach(attrs)
    ensures Attr("key", k) in attrs ==> Key(v) == Ok(k)
    ensures !HasKey(attrs, "key") ==> Key(v) == Err(AttributeNotFound)
  {
    ForceIs(v, Attrs(p, attrs));
    SelectIs(attrs, "key", k);
    hide ForcedTo, OneEach, HasKey, Select, Force;
  }

  lemma NoKey(v: Value, w: Value)
    requires ForcedTo(v, w) && !w.Attrs? && !w.Thunk?
    ensures Key(v) == Err(TypeError)
  {
    ForceIs(v, w);
    hide Force;
  }

  /** Keys are forced, and never equal by their addresses alone, but for lists. */
  lemma KeysCompare(k: Value, p: nat, l: seq<Value>)
    ensures ForcedTo(k, Closure(p)) ==> KeyEq(k, k) == Ok(false)
    ensures ForcedTo(k, Leaf(Float(NaN))) ==> KeyEq(k, k) == Ok(false)
    ensures ForcedTo(k, List(p, l)) ==> KeyEq(k, k) == Ok(true)
    ensures Broken(k) ==> KeyEq(k, k) == Err(ForceFailed)
  {
    if Broken(k) {
      BrokenFails(k, k, false, false);
    }
    if ForcedTo(k, Closure(p)) {
      ThunksCompare(k, k, Closure(p), Closure(p), false, false);
    }
    if ForcedTo(k, Leaf(Float(NaN))) {
      ThunksCompare(k, k, Leaf(Float(NaN)), Leaf(Float(NaN)), false, false);
    }
    if ForcedTo(k, List(p, l)) {
      ThunksCompare(k, k, List(p, l), List(p, l), false, false);
    }
    hide ForcedTo, Broken;
  }
}
