// `builtins.genericClosure`: the closure of a set of items under an operator, by their keys.
module GenericClosure {
  import opened Common
  import opened NixEquality

  /** The function passed by the user, with the forcing and the type check of its result. */
  type Operator = Value -> Result<seq<Value>>

  /** The key of an item. */
  function Key(v: Value): Result<Value> {
    var w :- Force(v);
    if !w.Attrs? then Err(TypeError)
    else match Select(w.attrs, "key")
      case None => Err(AttributeNotFound)
      case Some(k) => Ok(k)
  }

  /** `Value::nix_eq`, which agrees with the comparison at the top level. */
  function KeyEq(a: Value, b: Value): Result<bool> {
    Compare(a, b, false, false)
  }

  /** `v` is in `res`, or an item with an equal key is. */
  ghost predicate Covered(res: seq<Value>, v: Value) {
    exists i :: 0 <= i < |res| && Covers(res[i], v)
  }

  ghost predicate Covers(r: Value, v: Value) {
    r == v || (Key(r).Ok? && Key(v).Ok? && KeyEq(Key(r).value, Key(v).value) == Ok(true))
  }

  /** `v` comes from the start set or from the operator on one of the first `n` results. */
  ghost predicate Reached(start: seq<Value>, op: Operator, res: seq<Value>, n: nat, v: Value) {
    v in start || exists j :: 0 <= j < n && j < |res| && Yields(op, res[j], v)
  }

  ghost predicate Yields(op: Operator, r: Value, v: Value) {
    op(r).Ok? && v in op(r).value
  }

  /** No two results have equal keys. */
  ghost predicate DistinctKeys(res: seq<Value>) {
    && (forall i :: 0 <= i < |res| ==> Key(res[i]).Ok?)
    && (forall i, j :: 0 <= i < j < |res| ==> KeyEq(Key(res[i]).value, Key(res[j]).value) == Ok(false))
  }

  /** What the result promises. */
  ghost predicate IsClosure(start: seq<Value>, op: Operator, res: seq<Value>) {
    && DistinctKeys(res)
    && (forall v :: v in start ==> Covered(res, v))
    && (forall i, v :: 0 <= i < |res| && Yields(op, res[i], v) ==> Covered(res, v))
    && (forall i :: 0 <= i < |res| ==> op(res[i]).Ok? && Reached(start, op, res, i, res[i]))
  }

  /** How often `v` has been queued: in the start set and by the operator on the results. */
  ghost function Queued(start: seq<Value>, op: Operator, res: seq<Value>, v: Value): nat {
    if res == [] then multiset(start)[v]
    else
      var n := |res| - 1;
      Queued(start, op, res[..n], v) + if op(res[n]).Ok? then multiset(op(res[n]).value)[v] else 0
  }

  /** `v` has been queued more often than it has been taken up. */
  ghost predicate Waits(start: seq<Value>, op: Operator, res: seq<Value>, v: Value) {
    multiset(res)[v] < Queued(start, op, res, v)
  }

  /** What the loop may have taken up, in this order: items with pairwise different keys, each
      waiting when its turn came. */
  ghost predicate Chain(start: seq<Value>, op: Operator, res: seq<Value>) {
    && DistinctKeys(res)
    && forall i :: 0 <= i < |res| ==> op(res[i]).Ok? && Waits(start, op, res[..i], res[i])
  }

  /** The items that the loop may meet. */
  ghost predicate Met(start: seq<Value>, op: Operator, v: Value) {
    exists res :: Chain(start, op, res) && Waits(start, op, res, v)
  }

  /** The loop can take up no more than so many items. */
  ghost predicate Bounded(start: seq<Value>, op: Operator, bound: nat) {
    forall res :: Chain(start, op, res) ==> |res| <= bound
  }

  ghost predicate MetWithKey(start: seq<Value>, op: Operator, v: Value) {
    Met(start, op, v) && Key(v).Ok?
  }

  /** Up to equality, the keys of the items that may be met are finitely many: they fall into
      `bound` classes, and two keys of one class are never found to differ. */
  ghost predicate FiniteKeys(start: seq<Value>, op: Operator, cls: Value -> nat, bound: nat) {
    && (forall v :: MetWithKey(start, op, v) ==> cls(Key(v).value) < bound)
    && (forall v, w :: MetWithKey(start, op, v) && MetWithKey(start, op, w) ==>
          KeyEq(Key(v).value, Key(w).value) == Ok(false) ==> cls(Key(v).value) != cls(Key(w).value))
  }

  /** Nothing fails on the items that may be met. */
  ghost predicate NoFailures(start: seq<Value>, op: Operator) {
    && (forall v :: Met(start, op, v) ==> Key(v).Ok? && op(v).Ok?)
    && (forall v, w :: MetWithKey(start, op, v) && MetWithKey(start, op, w) ==> KeyEq(Key(v).value, Key(w).value).Ok?)
  }

  /** `insert_key`: whether the key differs from those of the results. The first that does not,
      or that cannot be compared, decides. */
  function NewKey(doneKeys: seq<Value>, k: Value): Result<bool> {
    if doneKeys == [] then Ok(true)
    else
      var same :- KeyEq(doneKeys[0], k);
      if same then Ok(false) else NewKey(doneKeys[1..], k)
  }

  lemma {:induction false} NewKeyMeans(doneKeys: seq<Value>, k: Value)
    ensures var r := NewKey(doneKeys, k);
      && (r == Ok(true) <==> forall i :: 0 <= i < |doneKeys| ==> KeyEq(doneKeys[i], k) == Ok(false))
      && (r == Ok(false) ==> exists i :: 0 <= i < |doneKeys| && KeyEq(doneKeys[i], k) == Ok(true))
      && (r.Err? ==> exists i :: 0 <= i < |doneKeys| && KeyEq(doneKeys[i], k).Err?)
  {
    hide KeyEq;
    if doneKeys != [] {
      NewKeyMeans(doneKeys[1..], k);
      assert forall i :: 0 < i < |doneKeys| ==> doneKeys[i] == doneKeys[1..][i - 1];
      assert forall i :: 0 <= i < |doneKeys[1..]| ==> doneKeys[1..][i] == doneKeys[i + 1];
    }
  }

  method IsNewKey(doneKeys: seq<Value>, k: Value) returns (r: Result<bool>)
    ensures r == NewKey(doneKeys, k)
  {
    hide KeyEq;
    for i := 0 to |doneKeys|
      invariant NewKey(doneKeys, k) == NewKey(doneKeys[i..], k)
    {
      assert doneKeys[i..][1..] == doneKeys[i + 1..];
      var same := KeyEq(doneKeys[i], k);
      if same.Err? {
        return Err(same.problem);
      }
      if same.value {
        return Ok(false);
      }
    }
    return Ok(true);
  }

  /** The loop, between two of its iterations or after a failure. */
  datatype Loop = Running(work: seq<Value>, res: seq<Value>, doneKeys: seq<Value>) | Failed(problem: Problem)

  function Iterated(op: Operator, l: Loop): Loop {
    if l.Failed? || l.work == [] then l
    else
      var val := l.work[0];
      match Key(val)
      case Err(p) => Failed(p)
      case Ok(k) =>
        match NewKey(l.doneKeys, k)
        case Err(p) => Failed(p)
        case Ok(isNew) =>
          if !isNew then l.(work := l.work[1..])
          else match op(val)
            case Err(p) => Failed(p)
            case Ok(more) => Running(l.work[1..] + more, l.res + [val], l.doneKeys + [k])
  }

  function After(start: seq<Value>, op: Operator, n: nat): Loop {
    if n == 0 then Running(start, [], []) else Iterated(op, After(start, op, n - 1))
  }

  /** The loop ends with this. */
  ghost predicate EndsWith(start: seq<Value>, op: Operator, r: Result<seq<Value>>) {
    exists n: nat :: Outcome(After(start, op, n), r)
  }

  predicate Outcome(l: Loop, r: Result<seq<Value>>) {
    match l
    case Failed(p) => r == Err(p)
    case Running(work, res, _) => work == [] && r == Ok(res)
  }

  lemma {:induction false} DistinctCount(classes: seq<nat>, below: set<nat>)
    requires forall i, j :: 0 <= i < j < |classes| ==> classes[i] != classes[j]
    requires forall c :: c in classes ==> c in below
    ensures |classes| <= |below|
    decreases |classes|
  {
    if classes != [] {
      var n := |classes| - 1;
      DistinctCount(classes[..n], below - {classes[n]});
    }
  }

  lemma {:induction false} Below(bound: nat) returns (s: set<nat>)
    ensures |s| == bound && forall c: nat :: c in s <==> c < bound
  {
    if bound == 0 {
      s := {};
    } else {
      var r := Below(bound - 1);
      s := r + {bound - 1};
    }
  }

  /** There are no more results than classes of keys. */
  lemma FewResults(start: seq<Value>, op: Operator, cls: Value -> nat, bound: nat)
    requires FiniteKeys(start, op, cls, bound)
    ensures Bounded(start, op, bound)
  {
    hide KeyEq, Key, Waits;
    forall res | Chain(start, op, res) ensures |res| <= bound {
      var classes := seq(|res|, i requires 0 <= i < |res| => cls(Key(res[i]).value));
      forall i | 0 <= i < |res| ensures Met(start, op, res[i]) {
        ChainMeets(start, op, res, i);
      }
      var below := Below(bound);
      DistinctCount(classes, below);
    }
  }

  /** What is taken up has been met. */
  lemma ChainMeets(start: seq<Value>, op: Operator, res: seq<Value>, i: nat)
    requires Chain(start, op, res) && i < |res|
    ensures Met(start, op, res[i])
  {
    hide KeyEq, Key, Waits;
    assert forall k :: 0 <= k < i ==> res[..i][..k] == res[..k];
    assert Chain(start, op, res[..i]);
  }

  /** The state of the worklist loop. */
  ghost predicate Progress(start: seq<Value>, op: Operator, work: seq<Value>, res: seq<Value>) {
    && DistinctKeys(res)
    && (forall v :: v in start ==> Covered(res, v) || v in work)
    && (forall i, v :: 0 <= i < |res| && Yields(op, res[i], v) ==> Covered(res, v) || v in work)
    && (forall i :: 0 <= i < |res| ==> op(res[i]).Ok? && Reached(start, op, res, i, res[i]))
    && (forall v :: v in work ==> Reached(start, op, res, |res|, v))
  }

  /** Nothing is in the worklist or among the results that has not been queued. */
  ghost predicate Accounted(start: seq<Value>, op: Operator, work: seq<Value>, res: seq<Value>) {
    && (forall i :: 0 <= i < |res| ==> op(res[i]).Ok? && Waits(start, op, res[..i], res[i]))
    && (forall v :: multiset(work)[v] + multiset(res)[v] <= Queued(start, op, res, v))
  }

  lemma AccountedSkip(start: seq<Value>, op: Operator, work: seq<Value>, res: seq<Value>)
    requires Accounted(start, op, work, res) && work != []
    ensures Accounted(start, op, work[1..], res)
  {
    assert work == [work[0]] + work[1..];
    hide Waits, Queued;
  }

  lemma AccountedTakeUp(start: seq<Value>, op: Operator, work: seq<Value>, res: seq<Value>)
    requires Accounted(start, op, work, res) && work != [] && op(work[0]).Ok?
    ensures Accounted(start, op, work[1..] + op(work[0]).value, res + [work[0]])
  {
    var (r, more, res') := (work[0], op(work[0]).value, res + [work[0]]);
    assert work == [r] + work[1..] && res'[..|res|] == res;
    forall i | 0 <= i < |res'| ensures op(res'[i]).Ok? && Waits(start, op, res'[..i], res'[i]) {
      assert res'[..i] == res[..i];
    }
    forall v ensures multiset(work[1..] + more)[v] + multiset(res')[v] <= Queued(start, op, res', v) {
      assert Queued(start, op, res', v) == Queued(start, op, res, v) + multiset(more)[v];
    }
  }

  lemma CoveredMore(res: seq<Value>, v: Value, r: Value)
    ensures Covered(res, v) ==> Covered(res + [r], v)
    ensures Covered(res + [r], r)
  {
    hide Covers;
    if Covered(res, v) {
      var i :| 0 <= i < |res| && Covers(res[i], v);
      assert Covers((res + [r])[i], v);
    }
    assert Covers((res + [r])[|res|], r) by { CoversItself(r); }
  }

  lemma CoversItself(r: Value)
    ensures Covers(r, r)
  {}

  lemma ReachedMore(start: seq<Value>, op: Operator, res: seq<Value>, n: nat, r: Value, v: Value)
    requires n <= |res| && Reached(start, op, res, n, v)
    ensures Reached(start, op, res + [r], n, v)
    ensures Reached(start, op, res + [r], |res| + 1, v)
  {
    hide Yields;
    if v !in start {
      var j :| 0 <= j < n && j < |res| && Yields(op, res[j], v);
      assert Yields(op, (res + [r])[j], v);
    }
  }

  /** An item whose key is known is dropped. */
  lemma Skip(start: seq<Value>, op: Operator, work: seq<Value>, res: seq<Value>)
    requires Progress(start, op, work, res) && work != [] && Covered(res, work[0])
    ensures Progress(start, op, work[1..], res)
  {
    hide Covered, Reached, DistinctKeys, Yields;
    assert forall v :: v in work ==> v == work[0] || v in work[1..];
  }

  /** An item with a new key is taken up, and what the operator makes of it is queued. */
  lemma TakeUp(start: seq<Value>, op: Operator, work: seq<Value>, res: seq<Value>)
    requires Progress(start, op, work, res) && work != []
    requires Key(work[0]).Ok? && op(work[0]).Ok?
    requires forall i :: 0 <= i < |res| ==> KeyEq(Key(res[i]).value, Key(work[0]).value) == Ok(false)
    ensures Progress(start, op, work[1..] + op(work[0]).value, res + [work[0]])
  {
    var (r, res', work') := (work[0], res + [work[0]], work[1..] + op(work[0]).value);
    hide KeyEq, Key, Covered, Reached, Yields;
    assert forall v :: v in work ==> v == r || v in work[1..];
    forall v ensures Covered(res, v) ==> Covered(res', v) ensures Covered(res', r) {
      CoveredMore(res, v, r);
    }
    forall i, v | 0 <= i < |res'| && Yields(op, res'[i], v) ensures Covered(res', v) || v in work' {
      if i < |res| {
        assert res'[i] == res[i];
      } else {
        YieldsIs(op, r, v);
      }
    }
    forall i | 0 <= i < |res'| ensures op(res'[i]).Ok? && Reached(start, op, res', i, res'[i]) {
      ReachedMore(start, op, res, i, r, res'[i]);
    }
    forall v | v in work' ensures Reached(start, op, res', |res'|, v) {
      if v in work {
        ReachedMore(start, op, res, |res|, r, v);
      } else {
        ReachedLast(start, op, res', v);
      }
    }
  }

  lemma YieldsIs(op: Operator, r: Value, v: Value)
    ensures Yields(op, r, v) <==> op(r).Ok? && v in op(r).value
  {}

  lemma ReachedLast(start: seq<Value>, op: Operator, res: seq<Value>, v: Value)
    requires res != [] && Yields(op, res[|res| - 1], v)
    ensures Reached(start, op, res, |res|, v)
  {}

  /** The keys of the results. */
  ghost predicate KeysOf(res: seq<Value>, doneKeys: seq<Value>) {
    |doneKeys| == |res| && forall i :: 0 <= i < |res| ==> Key(res[i]) == Ok(doneKeys[i])
  }

  ghost predicate LoopHolds(start: seq<Value>, op: Operator, l: Loop) {
    l.Running? ==> Progress(start, op, l.work, l.res) && Accounted(start, op, l.work, l.res) && KeysOf(l.res, l.doneKeys)
  }

  lemma IterationKeeps(start: seq<Value>, op: Operator, l: Loop)
    requires LoopHolds(start, op, l)
    ensures LoopHolds(start, op, Iterated(op, l))
  {
    hide Key, KeyEq, Covered, Reached, Yields, Progress, Accounted, NewKey;
    if l.Running? && l.work != [] && Key(l.work[0]).Ok? {
      var (val, k) := (l.work[0], Key(l.work[0]).value);
      NewKeyMeans(l.doneKeys, k);
      if NewKey(l.doneKeys, k) == Ok(false) {
        KnownKey(l.doneKeys, l.res, val);
        Skip(start, op, l.work, l.res);
        AccountedSkip(start, op, l.work, l.res);
      } else if NewKey(l.doneKeys, k) == Ok(true) && op(val).Ok? {
        TakeUp(start, op, l.work, l.res);
        AccountedTakeUp(start, op, l.work, l.res);
      }
    }
  }

  lemma {:induction false} AfterHolds(start: seq<Value>, op: Operator, n: nat)
    ensures LoopHolds(start, op, After(start, op, n))
    decreases n
  {
    if n == 0 {
      StartProgress(start, op);
    } else {
      hide LoopHolds, Iterated;
      AfterHolds(start, op, n - 1);
      IterationKeeps(start, op, After(start, op, n - 1));
    }
  }

  /** Main result: however many keys there are, whenever the loop ends with a list, that is a
      closure; and it fails only if something does that it has met. */
  lemma EndsWithClosure(start: seq<Value>, op: Operator, r: Result<seq<Value>>)
    requires EndsWith(start, op, r)
    ensures r.Ok? ==> IsClosure(start, op, r.value)
    ensures NoFailures(start, op) ==> r.Ok?
  {
    var n: nat :| Outcome(After(start, op, n), r);
    hide After, IsClosure, Progress, NoFailures;
    AfterHolds(start, op, n);
    if r.Ok? {
      DoneProgress(start, op, r.value);
    } else if NoFailures(start, op) {
      AfterSucceeds(start, op, n);
    }
  }

  lemma LoopMeets(start: seq<Value>, op: Operator, l: Loop)
    requires LoopHolds(start, op, l) && l.Running?
    ensures Chain(start, op, l.res) && forall v :: v in l.work ==> Met(start, op, v)
  {
    hide DistinctKeys, Reached, Queued;
    assert l.res[..|l.res|] == l.res;
  }

  lemma IterationSucceeds(start: seq<Value>, op: Operator, l: Loop)
    requires NoFailures(start, op) && l.Running? && l.work != [] && KeysOf(l.res, l.doneKeys)
    requires Chain(start, op, l.res) && Met(start, op, l.work[0])
    ensures Iterated(op, l).Running?
  {
    hide Key, KeyEq, NewKey, Chain, Met;
    assert op(l.work[0]).Ok? && Key(l.work[0]).Ok?;
    var k := Key(l.work[0]).value;
    NewKeyMeans(l.doneKeys, k);
    forall i | 0 <= i < |l.res| ensures KeyEq(l.doneKeys[i], k).Ok? {
      ChainMeets(start, op, l.res, i);
      assert MetWithKey(start, op, l.res[i]) && MetWithKey(start, op, l.work[0]);
    }
  }

  lemma {:induction false} AfterSucceeds(start: seq<Value>, op: Operator, n: nat)
    requires NoFailures(start, op)
    ensures After(start, op, n).Running?
    decreases n
  {
    if n > 0 {
      hide NoFailures, Progress, Accounted, Iterated, Chain, Met, KeysOf;
      var l := After(start, op, n - 1);
      AfterSucceeds(start, op, n - 1);
      AfterHolds(start, op, n - 1);
      LoopMeets(start, op, l);
      if l.work != [] {
        IterationSucceeds(start, op, l);
      } else {
        Stays(op, l);
      }
    }
  }

  lemma Stays(op: Operator, l: Loop)
    requires l.Running? && l.work == []
    ensures Iterated(op, l) == l
  {}

  /** Main result, `builtin_generic_closure`: with a bound on what can be taken up, the loop ends,
      with no more results than that, and they are a closure. */
  method BuiltinGenericClosure(start: seq<Value>, op: Operator, ghost bound: nat) returns (r: Result<seq<Value>>)
    requires Bounded(start, op, bound)
    ensures EndsWith(start, op, r)
    ensures r.Ok? ==> IsClosure(start, op, r.value) && |r.value| <= bound
    ensures NoFailures(start, op) ==> r.Ok?
  {
    hide Key, KeyEq, NewKey, Chain, IsClosure, Bounded, NoFailures, LoopHolds;
    var workSet := start;
    var res: seq<Value> := [];
    var doneKeys: seq<Value> := [];
    ghost var n: nat := 0;
    Fewer(start, op, bound, 0);
    while workSet != []
      invariant After(start, op, n) == Running(workSet, res, doneKeys) && |res| <= bound
      decreases bound - |res|, |workSet|
    {
      var val := workSet[0];
      n := n + 1;
      Fewer(start, op, bound, n);
      var key := Key(val);
      if key.Err? {
        r := Err(key.problem);
        Ends(start, op, n, r);
        return;
      }
      var isNew := IsNewKey(doneKeys, key.value);
      if isNew.Err? {
        r := Err(isNew.problem);
        Ends(start, op, n, r);
        return;
      }
      if !isNew.value {
        workSet := workSet[1..];
        continue;
      }
      doneKeys := doneKeys + [key.value];
      res := res + [val];
      var opResult := op(val);
      if opResult.Err? {
        r := Err(opResult.problem);
        Ends(start, op, n, r);
        return;
      }
      workSet := workSet[1..] + opResult.value;
    }
    r := Ok(res);
    Ends(start, op, n, r);
  }

  lemma Ends(start: seq<Value>, op: Operator, n: nat, r: Result<seq<Value>>)
    requires Outcome(After(start, op, n), r)
    ensures EndsWith(start, op, r)
    ensures r.Ok? ==> IsClosure(start, op, r.value)
    ensures NoFailures(start, op) ==> r.Ok?
  {
    hide After;
    assert EndsWith(start, op, r);
    EndsWithClosure(start, op, r);
  }

  lemma Fewer(start: seq<Value>, op: Operator, bound: nat, n: nat)
    requires Bounded(start, op, bound)
    ensures After(start, op, n).Running? ==> |After(start, op, n).res| <= bound
  {
    hide After, Chain;
    AfterHolds(start, op, n);
    if After(start, op, n).Running? {
      LoopMeets(start, op, After(start, op, n));
    }
  }

  lemma StartProgress(start: seq<Value>, op: Operator)
    ensures Progress(start, op, start, [])
  {}

  lemma DoneProgress(start: seq<Value>, op: Operator, res: seq<Value>)
    requires Progress(start, op, [], res)
    ensures IsClosure(start, op, res)
  {
    hide Covered, Reached, Yields, DistinctKeys;
  }

  lemma KnownKey(doneKeys: seq<Value>, res: seq<Value>, val: Value)
    requires |doneKeys| == |res| && (forall i :: 0 <= i < |res| ==> Key(res[i]) == Ok(doneKeys[i]))
    requires Key(val).Ok? && exists i :: 0 <= i < |doneKeys| && KeyEq(doneKeys[i], Key(val).value) == Ok(true)
    ensures Covered(res, val)
  {
    hide Key, KeyEq;
    var i :| 0 <= i < |doneKeys| && KeyEq(doneKeys[i], Key(val).value) == Ok(true);
    assert Covers(res[i], val);
  }

  // ---- Keys that are made afresh

  /** Item `n`: a set of its own, with a key thunk of its own that gives 0. */
  function Fresh(n: nat): Value {
    Attrs(2 * n, [Attr("key", Thunk(2 * n + 1, Some(Leaf(Int(0)))))])
  }

  /** The operator makes a new item, with a new key thunk, for every item. */
  ghost predicate MakesFresh(op: Operator) {
    forall n: nat :: op(Fresh(n)) == Ok([Fresh(n + 1)])
  }

  ghost predicate IsFresh(v: Value) {
    exists n: nat :: v == Fresh(n)
  }

  function OneClass(v: Value): nat {
    0
  }

  /** Equality of keys is what ends the loop, not their identity: such an operator leaves a
      single class of keys. */
  lemma FreshKeysAreFinite(op: Operator)
    requires MakesFresh(op)
    ensures FiniteKeys([Fresh(0)], op, OneClass, 1) && Bounded([Fresh(0)], op, 1)
  {
    forall v | Met([Fresh(0)], op, v) ensures IsFresh(v) {
      var res :| Chain([Fresh(0)], op, res) && Waits([Fresh(0)], op, res, v);
      MetIsFresh(op, res, v);
    }
    hide Key, KeyEq, Fresh, Met;
    forall v, w | IsFresh(v) && IsFresh(w) ensures Key(v).Ok? && Key(w).Ok? && KeyEq(Key(v).value, Key(w).value) == Ok(true) {
      var m: nat :| v == Fresh(m);
      var n: nat :| w == Fresh(n);
      FreshKeys(m, n);
    }
    assert FiniteKeys([Fresh(0)], op, OneClass, 1);
    FewResults([Fresh(0)], op, OneClass, 1);
  }

  lemma FreshKeys(m: nat, n: nat)
    ensures Key(Fresh(m)).Ok? && Key(Fresh(n)).Ok? && KeyEq(Key(Fresh(m)).value, Key(Fresh(n)).value) == Ok(true)
  {
    FreshKey(m);
    FreshKey(n);
    hide Key, Fresh;
    var zero := Leaf(Int(0));
    assert Force(zero) == Ok(zero);
    assert Force(Thunk(2 * m + 1, Some(zero))) == Ok(zero) && Force(Thunk(2 * n + 1, Some(zero))) == Ok(zero);
    assert CompareForced(zero, zero, false, false) == Ok(true);
  }

  lemma FreshKey(n: nat)
    ensures Key(Fresh(n)) == Ok(Thunk(2 * n + 1, Some(Leaf(Int(0)))))
  {
    assert Select([Attr("key", Thunk(2 * n + 1, Some(Leaf(Int(0)))))], "key").Some?;
  }

  lemma {:induction false} QueuedFrom(start: seq<Value>, op: Operator, res: seq<Value>, v: Value)
    ensures Queued(start, op, res, v) > 0 ==> v in start || exists j :: 0 <= j < |res| && Yields(op, res[j], v)
  {
    if res != [] {
      var n := |res| - 1;
      QueuedFrom(start, op, res[..n], v);
      if j :| 0 <= j < n && Yields(op, res[..n][j], v) {
        assert Yields(op, res[j], v);
      }
      YieldsIs(op, res[n], v);
      hide Yields;
    }
  }

  lemma {:induction false} MetIsFresh(op: Operator, res: seq<Value>, v: Value)
    requires MakesFresh(op) && Chain([Fresh(0)], op, res) && Waits([Fresh(0)], op, res, v)
    ensures IsFresh(v)
    decreases |res|
  {
    QueuedFrom([Fresh(0)], op, res, v);
    if v !in [Fresh(0)] {
      var j :| 0 <= j < |res| && Yields(op, res[j], v);
      ChainPrefix([Fresh(0)], op, res, j);
      MetIsFresh(op, res[..j], res[j]);
      hide Fresh, Chain, Waits;
      var m: nat :| res[j] == Fresh(m);
      assert op(Fresh(m)) == Ok([Fresh(m + 1)]);
      assert v == Fresh(m + 1);
    }
  }

  lemma ChainPrefix(start: seq<Value>, op: Operator, res: seq<Value>, i: nat)
    requires Chain(start, op, res) && i <= |res|
    ensures Chain(start, op, res[..i])
  {
    hide KeyEq, Key, Waits;
    assert forall k :: 0 <= k < i ==> res[..i][..k] == res[..k];
  }

  // ---- A key that differs from itself

  /** An item whose key is a function. */
  function Odd(): Value {
    Attrs(0, [Attr("key", Closure(0))])
  }

  lemma OddKey()
    ensures Key(Odd()) == Ok(Closure(0)) && KeyEq(Closure(0), Closure(0)) == Ok(false)
  {
    assert Select([Attr("key", Closure(0))], "key") == Some(Closure(0));
    assert Force(Closure(0)) == Ok(Closure(0));
    assert CompareForced(Closure(0), Closure(0), false, false) == Ok(false);
  }

  /** Where the operator yields nothing, such an item is taken up once, and that is all. */
  lemma OddOnce(op: Operator)
    requires op(Odd()) == Ok([])
    ensures Bounded([Odd()], op, 1)
  {
    hide Odd, DistinctKeys;
    forall res | Chain([Odd()], op, res) ensures |res| <= 1 {
      if |res| > 1 {
        assert Waits([Odd()], op, res[..0], res[0]) && Waits([Odd()], op, res[..1], res[1]);
        assert res[..0] == [] && res[..1] == [res[0]];
        OddQueued(op, res[0], res[1]);
      }
    }
  }

  lemma OddQueued(op: Operator, x: Value, y: Value)
    requires op(Odd()) == Ok([])
    ensures Waits([Odd()], op, [], x) ==> !Waits([Odd()], op, [x], y)
  {
    hide Odd;
    if Waits([Odd()], op, [], x) {
      assert Queued([Odd()], op, [], x) == multiset([Odd()])[x];
      assert x in [Odd()] && x == Odd();
      var one := [x];
      assert one[..0] == [] && one == [Odd()] && op(one[0]).value == [];
      assert Queued([Odd()], op, one, y) == Queued([Odd()], op, [], y);
    }
  }

  /** Where it yields the item itself, the loop goes on for good. */
  lemma {:induction false} OddForever(op: Operator, n: nat)
    requires op(Odd()) == Ok([Odd()])
    ensures var l := After([Odd()], op, n);
      l.Running? && l.work == [Odd()] && |l.res| == n && forall i :: 0 <= i < |l.doneKeys| ==> l.doneKeys[i] == Closure(0)
  {
    if n > 0 {
      OddForever(op, n - 1);
      OddKey();
      hide Odd, Key, KeyEq, NewKey, After;
      var l := After([Odd()], op, n - 1);
      OddIsNew(l.doneKeys);
      AfterNext([Odd()], op, n - 1);
    }
  }

  lemma {:induction false} OddIsNew(doneKeys: seq<Value>)
    requires forall i :: 0 <= i < |doneKeys| ==> doneKeys[i] == Closure(0)
    ensures NewKey(doneKeys, Closure(0)) == Ok(true)
  {
    OddKey();
    hide KeyEq, Key;
    if doneKeys != [] {
      OddIsNew(doneKeys[1..]);
    }
  }

  lemma AfterNext(start: seq<Value>, op: Operator, n: nat)
    ensures After(start, op, n + 1) == Iterated(op, After(start, op, n))
  {
    hide Iterated;
  }
}
