// What a `let` comes to, for any number of bindings: the events of its scope, and what they
// leave on the frame.
module ScopeLet {
  import opened Scope
  import opened Common
  import opened ScopeRuns
  import opened Accesses

  /** The events are disciplined and lead from `c` to `c'`. */
  ghost predicate LeadsTo(c: Config, es: seq<Event>, c': Config) {
    Inv(c) && Disciplined(c, es) && Run(c, es) == c'
  }

  lemma Nothing(c: Config)
    requires Inv(c)
    ensures LeadsTo(c, [], c)
  {}

  lemma First(c: Config, e: Event, es: seq<Event>, c': Config) returns (all: seq<Event>)
    requires Inv(c) && Allowed(c, e) && LeadsTo(Step(c, e), es, c')
    ensures LeadsTo(c, all, c') && all == [e] + es
  {
    hide Inv, Allowed, Step;
    all := [e] + es;
    assert all[0] == e && all[1..] == es;
  }

  /** Within a new scope, the first `k` names are declared, and the first `m` have their values. */
  ghost function Made(c: Config, names: seq<string>, vs: seq<Val>, k: nat, m: nat): Config
    requires m <= k <= |names| == |vs|
  {
    var d := c.scope.depth + 1;
    Config(
      c.scope.(depth := d, locals := c.scope.locals + seq(k, i requires 0 <= i < k => Binding(names[i], d, i < m))),
      c.vals + seq(k, i requires 0 <= i < k => if i < m then vs[i] else 0),
      c.frame + vs[..m], 0)
  }

  ghost function Binding(name: string, depth: nat, bound: bool): Local {
    Local(Ident(name), 0, depth, bound, false, false, false)
  }

  lemma BeginMakes(c: Config, names: seq<string>, vs: seq<Val>)
    requires Inv(c) && c.temps == 0 && |names| == |vs|
    ensures Allowed(c, Begin) && Step(c, Begin) == Made(c, names, vs, 0, 0)
  {
    var s := Step(c, Begin);
    assert s.frame == c.frame + vs[..0] && s.vals == c.vals + [] && s.scope.locals == c.scope.locals + [];
  }

  lemma DeclareMakes(c: Config, names: seq<string>, vs: seq<Val>, k: nat)
    requires k < |names| == |vs| && Inv(Made(c, names, vs, k, 0))
    ensures Step(Made(c, names, vs, k, 0), Declare(names[k], 0)) == Made(c, names, vs, k + 1, 0)
  {
    var (s, s') := (Step(Made(c, names, vs, k, 0), Declare(names[k], 0)), Made(c, names, vs, k + 1, 0));
    assert s.vals == s'.vals && s.scope.locals == s'.scope.locals;
  }

  /** The same with the next value on the frame. */
  ghost function Pushed(c: Config, names: seq<string>, vs: seq<Val>, m: nat): Config
    requires m < |names| == |vs|
  {
    var c1 := Made(c, names, vs, |names|, m);
    c1.(frame := c1.frame + [vs[m]], temps := 1)
  }

  lemma EvaluateMakes(c: Config, names: seq<string>, vs: seq<Val>, m: nat)
    requires m < |names| == |vs| && Inv(Made(c, names, vs, |names|, m))
    ensures Allowed(Made(c, names, vs, |names|, m), Evaluate(vs[m]))
    ensures Step(Made(c, names, vs, |names|, m), Evaluate(vs[m])) == Pushed(c, names, vs, m)
    ensures Inv(Pushed(c, names, vs, m))
  {
    Keeps(Made(c, names, vs, |names|, m), Evaluate(vs[m]));
    hide Inv;
  }

  lemma NextIs(c: Config, names: seq<string>, vs: seq<Val>, m: nat)
    requires m < |names| == |vs| && Ordered(c.scope.locals, c.scope.depth)
    ensures NextPending(Pushed(c, names, vs, m).scope, |c.scope.locals| + m)
  {}

  lemma MarkMakes(c: Config, names: seq<string>, vs: seq<Val>, m: nat)
    requires Inv(c) && m < |names| == |vs| && Inv(Pushed(c, names, vs, m))
    ensures var (c2, l) := (Pushed(c, names, vs, m), |c.scope.locals| + m);
      && Allowed(c2, MarkInitialised(l))
      && Step(c2, MarkInitialised(l)) == Made(c, names, vs, |names|, m + 1)
  {
    var (c2, l) := (Pushed(c, names, vs, m), |c.scope.locals| + m);
    NextIs(c, names, vs, m);
    ValueEach(c);
    hide Inv, NextPending, Ordered;
    var (s, s') := (Step(c2, MarkInitialised(l)), Made(c, names, vs, |names|, m + 1));
    assert s.vals == s'.vals;
    assert s.scope.locals == s'.scope.locals;
    assert s.frame == s'.frame by { assert vs[..m + 1] == vs[..m] + [vs[m]]; }
  }

  /** The events of the bindings, from the declaration of name `k` on. */
  lemma {:induction false} Declares(c: Config, names: seq<string>, vs: seq<Val>, k: nat, es: seq<Event>, c': Config)
    returns (all: seq<Event>)
    requires k <= |names| == |vs| && Inv(Made(c, names, vs, k, 0))
    requires LeadsTo(Made(c, names, vs, |names|, 0), es, c')
    ensures LeadsTo(Made(c, names, vs, k, 0), all, c')
    decreases |names| - k
  {
    if k == |names| {
      all := es;
    } else {
      var c1 := Made(c, names, vs, k, 0);
      Keeps(c1, Declare(names[k], 0));
      DeclareMakes(c, names, vs, k);
      hide Inv, Step, Made, LeadsTo;
      all := Declares(c, names, vs, k + 1, es, c');
      all := First(c1, Declare(names[k], 0), all, c');
    }
  }

  /** The events of the values, from value `m` on. */
  lemma {:induction false} Binds(c: Config, names: seq<string>, vs: seq<Val>, m: nat, es: seq<Event>, c': Config)
    returns (all: seq<Event>)
    requires Inv(c) && m <= |names| == |vs| && Inv(Made(c, names, vs, |names|, m))
    requires LeadsTo(Made(c, names, vs, |names|, |names|), es, c')
    ensures LeadsTo(Made(c, names, vs, |names|, m), all, c')
    decreases |names| - m
  {
    if m == |names| {
      all := es;
    } else {
      var (c1, l) := (Made(c, names, vs, |names|, m), |c.scope.locals| + m);
      EvaluateMakes(c, names, vs, m);
      MarkMakes(c, names, vs, m);
      var c2 := Pushed(c, names, vs, m);
      Keeps(c2, MarkInitialised(l));
      hide Inv, Step, Made, Pushed, LeadsTo, Allowed;
      all := Binds(c, names, vs, m + 1, es, c');
      all := First(c2, MarkInitialised(l), all, c');
      all := First(c1, Evaluate(vs[m]), all, c');
    }
  }

  /** Looking up a name of the `let` finds the last binding of that name. */
  lemma LookUp(c: Config, names: seq<string>, vs: seq<Val>, j: nat)
    requires j < |names| == |vs| && forall k :: j < k < |names| ==> names[k] != names[j]
    ensures Resolved(Made(c, names, vs, |names|, |names|).scope.locals, names[j]) == Some(|c.scope.locals| + j)
  {
    var locals := Made(c, names, vs, |names|, |names|).scope.locals;
    ResolvedIs(locals, names[j], |c.scope.locals| + j);
  }

  /** The state in which the body has been compiled, with its value on the frame. */
  ghost predicate BodyDone(c: Config, c': Config, v: Val) {
    && c'.temps == 1 && c'.frame != [] && c'.frame[|c'.frame| - 1] == v
    && c'.scope.depth == c.scope.depth + 1 && c'.scope.withSize == c.scope.withSize && c'.scope.poisoned == c.scope.poisoned
    && c.scope.locals <= c'.scope.locals && c.vals <= c'.vals
    && forall k :: |c.scope.locals| <= k < |c'.scope.locals| ==> c'.scope.locals[k].depth == c.scope.depth + 1
  }

  lemma KeptAre(c: Config, c': Config, v: Val)
    requires Inv(c) && BodyDone(c, c', v)
    ensures KeptCount(c'.scope.locals, c'.scope.depth) == |c.scope.locals|
  {
    var (locals, d, own) := (c'.scope.locals, c'.scope.depth, |c.scope.locals|);
    KeptCountIs(locals, d);
    hide KeptCount;
    assert forall k :: 0 <= k < own ==> locals[k] == c.scope.locals[k] && locals[k].depth < d;
  }

  /** Closing leaves the frame of before and the value of the body. */
  lemma CloseLeaves(c: Config, c': Config, v: Val)
    requires Inv(c) && c.temps == 0 && c.scope.locals != [] && Inv(c') && BodyDone(c, c', v)
    ensures Allowed(c', Close) && Step(c', Close) == c.(frame := c.frame + [v], temps := 1)
  {
    KeptAre(c, c', v);
    ClosedFrame(c');
    assert c'.scope.locals[..|c.scope.locals|] == c.scope.locals && c'.vals[..|c.scope.locals|] == c.vals;
    assert KeptVals(c') == Bound(c.scope.locals, c.vals);
    assert c.frame[..|c.frame| - 0] == c.frame;
    assert Unpoisoned(c'.scope).poisoned == c.scope.poisoned;
    hide Bound, KeptCount;
  }

  lemma NameFound(c: Config, names: seq<string>, vs: seq<Val>, j: nat)
    requires |names| == |vs| && Inv(c) && Inv(Made(c, names, vs, |names|, |names|))
    requires j < |names| && forall k :: j < k < |names| ==> names[k] != names[j]
    ensures var (c1, l) := (Made(c, names, vs, |names|, |names|), |c.scope.locals| + j);
      var c2 := Step(c1, Resolve(names[j]));
      && Allowed(c1, Resolve(names[j])) && Inv(c2) && Read(c, c2, l, vs[j])
  {
    var c1 := Made(c, names, vs, |names|, |names|);
    var l := |c.scope.locals| + j;
    hide *;
    LookUp(c, names, vs, j);
    ResolveMarks(c1, names[j], l);
    Keeps(c1, Resolve(names[j]));
    MadeReads(c, names, vs, j);
    UsedReads(c, c1, l, vs[j]);
  }

  lemma MadeReads(c: Config, names: seq<string>, vs: seq<Val>, j: nat)
    requires |names| == |vs| && Inv(c) && j < |names|
    ensures Read(c, Made(c, names, vs, |names|, |names|), |c.scope.locals| + j, vs[j])
  {
    ValueEach(c);
    hide Inv;
  }

  lemma UsedReads(c: Config, c1: Config, l: nat, v: Val)
    requires Read(c, c1, l, v) && |c.scope.locals| <= l
    ensures l < |c1.scope.locals|
    ensures Read(c, c1.(scope := c1.scope.(locals := c1.scope.locals[l := c1.scope.locals[l].(used := true)])), l, v)
  {}

  lemma ResolveMarks(c: Config, name: string, l: nat)
    requires Inv(c) && Resolved(c.scope.locals, name) == Some(l)
    ensures Allowed(c, Resolve(name))
    ensures Step(c, Resolve(name))
         == c.(scope := c.scope.(locals := c.scope.locals[l := c.scope.locals[l].(used := true)]))
  {
    hide Inv;
  }

  /** Local `l` of the `let` has the value `v`. */
  ghost predicate Read(c: Config, c2: Config, l: nat, v: Val) {
    && l < |c2.scope.locals| == |c2.vals| && c2.scope.locals[l].initialised && c2.vals[l] == v && c2.temps == 0
    && c2.scope.depth == c.scope.depth + 1 && c2.scope.withSize == c.scope.withSize && c2.scope.poisoned == c.scope.poisoned
    && c.scope.locals <= c2.scope.locals && c.vals <= c2.vals
    && forall k :: |c.scope.locals| <= k < |c2.scope.locals| ==> c2.scope.locals[k].depth == c.scope.depth + 1
  }

  lemma ReadIs(c: Config, c2: Config, l: nat, v: Val)
    requires Inv(c2) && Read(c, c2, l, v)
    ensures Allowed(c2, GetLocal(l)) && Inv(Step(c2, GetLocal(l))) && BodyDone(c, Step(c2, GetLocal(l)), v)
  {
    Keeps(c2, GetLocal(l));
    InitialisedSlot(c2, l);
    hide Inv, StackIndex;
  }

  /** Main result: a `let` with any number of bindings whose body is one of its names: its events
      are disciplined, and lead to where it began with the value of that name on the frame; of
      several bindings of the name, the last one's. */
  lemma LetReads(c: Config, names: seq<string>, vs: seq<Val>, j: nat) returns (es: seq<Event>)
    requires Inv(c) && c.temps == 0 && c.scope.locals != [] && |names| == |vs|
    requires j < |names| && forall k :: j < k < |names| ==> names[k] != names[j]
    ensures LeadsTo(c, es, c.(frame := c.frame + [vs[j]], temps := 1))
  {
    hide *;
    var l := |c.scope.locals| + j;
    BeginMakes(c, names, vs);
    Keeps(c, Begin);
    MadeKeeps(c, names, vs, |names|, |names|);
    var c1 := Made(c, names, vs, |names|, |names|);
    NameFound(c, names, vs, j);
    var c2 := Step(c1, Resolve(names[j]));
    ReadIs(c, c2, l, vs[j]);
    var c3 := Step(c2, GetLocal(l));
    CloseLeaves(c, c3, vs[j]);
    var end := c.(frame := c.frame + [vs[j]], temps := 1);
    Keeps(c3, Close);
    MadeKeeps(c, names, vs, |names|, 0);
    Nothing(end);
    es := First(c3, Close, [], end);
    es := First(c2, GetLocal(l), es, end);
    es := First(c1, Resolve(names[j]), es, end);
    es := Binds(c, names, vs, 0, es, end);
    es := Declares(c, names, vs, 0, es, end);
    es := First(c, Begin, es, end);
  }

  lemma {:induction false} MadeKeeps(c: Config, names: seq<string>, vs: seq<Val>, k: nat, m: nat)
    requires Inv(c) && c.temps == 0 && m <= k <= |names| == |vs| && (m == 0 || k == |names|)
    ensures Inv(Made(c, names, vs, k, m))
    decreases k + m
  {
    hide Inv, Step, Allowed;
    if m > 0 {
      MadeKeeps(c, names, vs, k, m - 1);
      EvaluateMakes(c, names, vs, m - 1);
      MarkMakes(c, names, vs, m - 1);
      Keeps(Pushed(c, names, vs, m - 1), MarkInitialised(|c.scope.locals| + m - 1));
    } else if k > 0 {
      MadeKeeps(c, names, vs, k - 1, 0);
      DeclareMakes(c, names, vs, k - 1);
      MayDeclare(Made(c, names, vs, k - 1, 0), names[k - 1]);
      Keeps(Made(c, names, vs, k - 1, 0), Declare(names[k - 1], 0));
    } else {
      BeginMakes(c, names, vs);
      Keeps(c, Begin);
    }
  }

  lemma MayDeclare(c: Config, name: string)
    ensures Allowed(c, Declare(name, 0))
  {}
}
