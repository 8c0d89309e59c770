// `Scope` keeps one flat list of locals and one flat map of poisoned tokens. Both stand for
// a stack of nested environments, one for each scope that is open, in this context and in
// the contexts around it.
module ScopeNesting {
  import opened Common
  import opened Scope
  import opened ScopeRuns

  /** What one open scope declares, in order, and the tokens that it poisons. */
  datatype Env = Env(names: seq<LocalName>, poison: set<string>)

  type Envs = seq<Env>

  /** The locals of the environments from `base` upwards: name and depth. */
  ghost function Flat(envs: Envs, base: nat): seq<(LocalName, nat)> {
    if |envs| <= base then []
    else
      var d := |envs| - 1;
      Flat(envs[..d], base) + seq(|envs[d].names|, i requires 0 <= i < |envs[d].names| => (envs[d].names[i], d))
  }

  ghost function Outline(locals: seq<Local>): (o: seq<(LocalName, nat)>)
    ensures |o| == |locals|
    ensures forall i :: 0 <= i < |o| ==> o[i] == (locals[i].name, locals[i].depth)
  {
    seq(|locals|, i requires 0 <= i < |locals| => (locals[i].name, locals[i].depth))
  }

  /** Some enclosing open scope poisons the token; `d` is the outermost one. */
  ghost predicate PoisonsFirst(envs: Envs, token: string, d: nat) {
    d < |envs| && token in envs[d].poison && forall k :: 0 <= k < d ==> token !in envs[k].poison
  }

  ghost predicate SomePoisons(envs: Envs, token: string) {
    exists k :: 0 <= k < |envs| && token in envs[k].poison
  }

  /** `s` is the flat form of `envs`, of which those below `base` belong to other contexts. */
  ghost predicate Refines(s: ScopeState, base: nat, envs: Envs) {
    && |envs| == s.depth + 1
    && base <= s.depth
    && Outline(s.locals) == Flat(envs, base)
    && (forall t :: t in s.poisoned ==> PoisonsFirst(envs, t, s.poisoned[t]))
    && (forall t :: SomePoisons(envs, t) ==> t in s.poisoned)
  }

  /** The innermost binding of a name: the environment and the place in it. */
  ghost function Lookup(envs: Envs, base: nat, name: string): Option<(nat, nat)> {
    if |envs| <= base then None
    else
      var d := |envs| - 1;
      match LastOf(envs[d].names, name)
      case Some(i) => Some((d, i))
      case None => Lookup(envs[..d], base, name)
  }

  ghost function LastOf(names: seq<LocalName>, name: string): (r: Option<nat>)
    ensures r.Some? ==> r.value < |names| && names[r.value] == Ident(name)
    ensures forall i :: 0 <= i < |names| && names[i] == Ident(name) ==> r.Some? && i <= r.value
  {
    var n := |names|;
    if n == 0 then None
    else if names[n - 1] == Ident(name) then Some(n - 1)
    else LastOf(names[..n - 1], name)
  }

  /** The flat index of a place in an environment. */
  ghost function Place(envs: Envs, base: nat, p: (nat, nat)): nat
    requires p.0 < |envs|
  {
    |Flat(envs[..p.0], base)| + p.1
  }

  lemma {:induction false} LastInOutline(locals: seq<Local>, name: string)
    ensures var r := Resolved(locals, name);
      && (r.Some? ==> locals[r.value].name == Ident(name) && forall i :: r.value < i < |locals| ==> locals[i].name != Ident(name))
      && (r.None? ==> forall i :: 0 <= i < |locals| ==> locals[i].name != Ident(name))
  {
    var n := |locals|;
    if n > 0 && !locals[n - 1].HasName(name) {
      LastInOutline(locals[..n - 1], name);
    }
  }

  /** In the flattened environments the last occurrence of a name is its innermost binding. */
  lemma {:induction false} LookupIsLast(envs: Envs, base: nat, name: string)
    ensures var (f, r) := (Flat(envs, base), Lookup(envs, base, name));
      match r
      case None => forall i :: 0 <= i < |f| ==> f[i].0 != Ident(name)
      case Some(p) =>
        && p.0 < |envs| && Place(envs, base, p) < |f| && f[Place(envs, base, p)] == (Ident(name), p.0)
        && forall i :: Place(envs, base, p) < i < |f| ==> f[i].0 != Ident(name)
  {
    if |envs| > base {
      var d := |envs| - 1;
      if LastOf(envs[d].names, name).None? {
        LookupIsLast(envs[..d], base, name);
        if Lookup(envs[..d], base, name).Some? {
          var p := Lookup(envs[..d], base, name).value;
          assert envs[..d][..p.0] == envs[..p.0];
        }
      }
    }
  }

  /** `resolve_local` finds the innermost binding that is visible. */
  lemma ResolvesInnermost(s: ScopeState, base: nat, envs: Envs, name: string)
    requires Refines(s, base, envs)
    ensures match Lookup(envs, base, name)
      case None => Resolved(s.locals, name) == None
      case Some(p) => p.0 < |envs| && Resolved(s.locals, name) == Some(Place(envs, base, p))
  {
    var o := Outline(s.locals);
    LookupIsLast(envs, base, name);
    LastInOutline(s.locals, name);
    hide Flat, Lookup, Resolved, Place, Outline;
    assert forall i :: 0 <= i < |s.locals| ==> s.locals[i].name == o[i].0;
  }

  lemma PoisonedIffSomePoisons(s: ScopeState, base: nat, envs: Envs, token: string)
    requires Refines(s, base, envs)
    ensures token in s.poisoned <==> SomePoisons(envs, token)
  {
    if token in s.poisoned {
      assert PoisonsFirst(envs, token, s.poisoned[token]);
    }
  }

  /** What the events mean for the environments. */
  ghost function EnvStep(envs: Envs, e: Event): Envs
    requires envs != []
  {
    var d := |envs| - 1;
    match e
    case Begin => envs + [Env([], {})]
    case Declare(name, _) => envs[d := envs[d].(names := envs[d].names + [Ident(name)])]
    case DeclarePhantom(_, _) => envs[d := envs[d].(names := envs[d].names + [Phantom])]
    case Poison(token) => envs[d := envs[d].(poison := envs[d].poison + {token})]
    case Close | Collect(_) | CollectInto(_) => envs[..d]
    case _ => envs
  }

  lemma EmptyRefines()
    ensures Refines(EMPTY, 0, [Env([], {})])
  {
    assert Flat([Env([], {})], 0) == [];
  }

  /** `inherit` opens one more environment on top of those of the parent. */
  lemma InheritRefines(s: ScopeState, base: nat, envs: Envs)
    requires Refines(s, base, envs)
    ensures Refines(Inherited(s), s.depth + 1, envs + [Env([], {})])
  {
    var envs' := envs + [Env([], {})];
    assert envs'[..|envs|] == envs;
    forall t | t in s.poisoned ensures PoisonsFirst(envs', t, s.poisoned[t]) {
      assert PoisonsFirst(envs, t, s.poisoned[t]);
    }
    forall t | SomePoisons(envs', t) ensures t in s.poisoned {
      var k :| 0 <= k < |envs'| && t in envs'[k].poison;
      assert t in envs[k].poison && SomePoisons(envs, t);
    }
  }

  lemma BeginRefines(s: ScopeState, base: nat, envs: Envs)
    requires Refines(s, base, envs)
    ensures Refines(s.(depth := s.depth + 1), base, envs + [Env([], {})])
  {
    InheritRefines(s, base, envs);
    assert (envs + [Env([], {})])[..|envs|] == envs;
  }

  lemma DeclareRefines(s: ScopeState, base: nat, envs: Envs, name: LocalName, span: Span, initialised: bool)
    requires Refines(s, base, envs)
    ensures var d := |envs| - 1;
      Refines(Declared(s, name, span, initialised), base, envs[d := envs[d].(names := envs[d].names + [name])])
  {
    var d := |envs| - 1;
    var envs' := envs[d := envs[d].(names := envs[d].names + [name])];
    assert envs'[..d] == envs[..d];
    assert Flat(envs', base) == Flat(envs, base) + [(name, d)];
    assert Outline(Declared(s, name, span, initialised).locals) == Outline(s.locals) + [(name, d)];
    hide Flat, Outline;
    PoisonUnchanged(s, envs, envs');
  }

  lemma PoisonUnchanged(s: ScopeState, envs: Envs, envs': Envs)
    requires |envs| == |envs'| && forall k :: 0 <= k < |envs| ==> envs'[k].poison == envs[k].poison
    ensures forall t :: t in s.poisoned && PoisonsFirst(envs, t, s.poisoned[t]) ==> PoisonsFirst(envs', t, s.poisoned[t])
    ensures forall t :: SomePoisons(envs', t) ==> SomePoisons(envs, t)
  {
    forall t | SomePoisons(envs', t) ensures SomePoisons(envs, t) {
      var k :| 0 <= k < |envs'| && t in envs'[k].poison;
      assert t in envs[k].poison;
    }
  }

  lemma PoisonRefines(s: ScopeState, base: nat, envs: Envs, token: string)
    requires Refines(s, base, envs)
    ensures var d := |envs| - 1;
      Refines(Poisoned(s, token, s.depth), base, envs[d := envs[d].(poison := envs[d].poison + {token})])
  {
    var d := |envs| - 1;
    var envs' := envs[d := envs[d].(poison := envs[d].poison + {token})];
    var s' := Poisoned(s, token, s.depth);
    assert envs'[..d] == envs[..d];
    assert Flat(envs', base) == Flat(envs, base);
    hide Flat;
    forall t | t in s'.poisoned ensures PoisonsFirst(envs', t, s'.poisoned[t]) {
      if t in s.poisoned {
        assert PoisonsFirst(envs, t, s.poisoned[t]);
      } else {
        assert !SomePoisons(envs, t);
      }
    }
    forall t | SomePoisons(envs', t) ensures t in s'.poisoned {
      var k :| 0 <= k < |envs'| && t in envs'[k].poison;
      if t != token {
        assert t in envs[k].poison && SomePoisons(envs, t);
      }
    }
  }

  /** What `end_scope` keeps are the locals of the other environments. */
  lemma KeptAre(s: ScopeState, base: nat, envs: Envs)
    requires Refines(s, base, envs) && base < s.depth
    ensures KeptCount(s.locals, s.depth) == |Flat(envs[..|envs| - 1], base)|
  {
    KeptCountIs(s.locals, s.depth);
    LowerDepths(envs[..|envs| - 1], base);
    var (o, m) := (Outline(s.locals), |Flat(envs[..|envs| - 1], base)|);
    assert forall i :: 0 <= i < m ==> o[i].1 < s.depth;
    assert forall i :: m <= i < |o| ==> o[i].1 == s.depth;
    hide Flat, Outline, KeptCount;
    assert forall i :: 0 <= i < |o| ==> s.locals[i].depth == o[i].1;
    var kept := KeptCount(s.locals, s.depth);
    assert kept < |o| ==> o[kept].1 == s.depth;
    assert kept > 0 ==> o[kept - 1].1 != s.depth;
  }

  lemma EndRefines(s: ScopeState, base: nat, envs: Envs)
    requires Refines(s, base, envs) && base < s.depth
    ensures Refines(Ended(s), base, envs[..|envs| - 1])
  {
    var d := |envs| - 1;
    var (s', envs') := (Ended(s), envs[..d]);
    KeptAre(s, base, envs);
    assert Outline(s'.locals) == Outline(s.locals)[..|Flat(envs', base)|] == Flat(envs', base);
    hide Flat, Outline, KeptCount;
    forall t | t in s'.poisoned ensures PoisonsFirst(envs', t, s'.poisoned[t]) {
      assert PoisonsFirst(envs, t, s.poisoned[t]);
    }
    forall t | SomePoisons(envs', t) ensures t in s'.poisoned {
      var k :| 0 <= k < |envs'| && t in envs'[k].poison;
      assert t in envs[k].poison && SomePoisons(envs, t);
      assert PoisonsFirst(envs, t, s.poisoned[t]);
    }
  }

  lemma {:induction false} LowerDepths(envs: Envs, base: nat)
    ensures forall i :: 0 <= i < |Flat(envs, base)| ==> Flat(envs, base)[i].1 < |envs|
  {
    if |envs| > base {
      LowerDepths(envs[..|envs| - 1], base);
    }
  }

  /** Marks on locals do not show in the environments. */
  lemma MarkRefines(s: ScopeState, base: nat, envs: Envs, s': ScopeState)
    requires Refines(s, base, envs)
    requires s'.depth == s.depth && s'.poisoned == s.poisoned && |s'.locals| == |s.locals|
    requires forall i :: 0 <= i < |s.locals| ==> s'.locals[i].name == s.locals[i].name && s'.locals[i].depth == s.locals[i].depth
    ensures Refines(s', base, envs)
  {
    assert Outline(s'.locals) == Outline(s.locals);
  }

  /** Every event does to the flat form what it does to the nested one. */
  lemma StepRefines(c: Config, e: Event, base: nat, envs: Envs)
    requires Inv(c) && Allowed(c, e) && Refines(c.scope, base, envs)
    ensures Refines(Step(c, e).scope, base, EnvStep(envs, e))
  {
    hide Refines, Inv, KeptCount, Resolved, Bound, StackIndex, Pops;
    assert envs != [] && |envs| == c.scope.depth + 1 by { NotEmpty(c.scope, base, envs); }
    if e.Close? || e.Collect? || e.CollectInto? {
      AboveBase(c.scope, base, envs);
    }
    match e
    case Begin => BeginRefines(c.scope, base, envs);
    case Declare(name, span) => DeclareRefines(c.scope, base, envs, Ident(name), span, false);
    case DeclarePhantom(span, initialised) => DeclareRefines(c.scope, base, envs, Phantom, span, initialised);
    case Poison(token) => PoisonRefines(c.scope, base, envs, token);
    case Close => EndRefines(c.scope, base, envs);
    case Collect(_) => EndRefines(c.scope, base, envs);
    case CollectInto(_) => EndRefines(c.scope, base, envs);
    case _ => MarkRefines(c.scope, base, envs, Step(c, e).scope);
  }

  lemma NotEmpty(s: ScopeState, base: nat, envs: Envs)
    requires Refines(s, base, envs)
    ensures envs != [] && |envs| == s.depth + 1
  {}

  /** A scope that can be ended lies above another one of the same context. */
  lemma AboveBase(s: ScopeState, base: nat, envs: Envs)
    requires Refines(s, base, envs) && KeptCount(s.locals, s.depth) > 0
    ensures base < s.depth
  {
    var kept := KeptCount(s.locals, s.depth);
    KeptCountIs(s.locals, s.depth);
    DepthsFromBase(envs, base);
    LowerDepths(envs, base);
    assert Outline(s.locals)[kept - 1].1 == s.locals[kept - 1].depth;
    hide Flat;
  }

  lemma {:induction false} DepthsFromBase(envs: Envs, base: nat)
    ensures forall i :: 0 <= i < |Flat(envs, base)| ==> Flat(envs, base)[i].1 >= base
  {
    if |envs| > base {
      DepthsFromBase(envs[..|envs| - 1], base);
    }
  }

  ghost function EnvRun(envs: Envs, es: seq<Event>): Option<Envs>
    decreases |es|
  {
    if es == [] then Some(envs)
    else if envs == [] then None
    else EnvRun(EnvStep(envs, es[0]), es[1..])
  }

  /** Over a whole run, the flat scope goes through the flat forms of the environments. */
  lemma {:induction false} RunRefines(c: Config, es: seq<Event>, base: nat, envs: Envs)
    requires Inv(c) && Disciplined(c, es) && Refines(c.scope, base, envs)
    ensures EnvRun(envs, es).Some? && Refines(Run(c, es).scope, base, EnvRun(envs, es).value)
    decreases |es|
  {
    NotEmpty(c.scope, base, envs);
    if es != [] {
      hide Refines, Step, EnvStep, Inv;
      Keeps(c, es[0]);
      StepRefines(c, es[0], base, envs);
      RunRefines(Step(c, es[0]), es[1..], base, EnvStep(envs, es[0]));
    }
  }

  /** Main result: after any run, `resolve_local` finds the innermost binding of a name that is
      still open, and a token is poisoned if and only if some open scope has poisoned it. */
  lemma RunMeans(c: Config, es: seq<Event>, base: nat, envs: Envs, name: string, token: string)
    requires Inv(c) && Disciplined(c, es) && Refines(c.scope, base, envs)
    ensures EnvRun(envs, es).Some?
    ensures var (s, open) := (Run(c, es).scope, EnvRun(envs, es).value);
      && (token in s.poisoned <==> SomePoisons(open, token))
      && match Lookup(open, base, name)
         case None => Resolved(s.locals, name) == None
         case Some(p) => p.0 < |open| && Resolved(s.locals, name) == Some(Place(open, base, p))
  {
    hide Inv, Refines, Disciplined, Run, EnvRun, Lookup, Resolved, SomePoisons, Place;
    RunRefines(c, es, base, envs);
    ResolvesInnermost(Run(c, es).scope, base, EnvRun(envs, es).value, name);
    PoisonedIffSomePoisons(Run(c, es).scope, base, EnvRun(envs, es).value, token);
  }

  const ROOT: Config := Config(EMPTY, [], [], 0)

  /** What a nested context starts with. */
  function Child(s: ScopeState): Config {
    Config(Inherited(s), [], [], 0)
  }

  lemma RootInv()
    ensures Inv(ROOT)
  {}

  lemma ChildInv(c: Config)
    requires Inv(c)
    ensures Inv(Child(c.scope))
  {
    assert Bound([], []) == [];
  }

  /** From the empty scope on. */
  lemma RootRunMeans(es: seq<Event>, name: string, token: string)
    requires Inv(ROOT) && Disciplined(ROOT, es)
    ensures EnvRun([Env([], {})], es).Some?
    ensures var (s, open) := (Run(ROOT, es).scope, EnvRun([Env([], {})], es).value);
      && (token in s.poisoned <==> SomePoisons(open, token))
      && match Lookup(open, 0, name)
         case None => Resolved(s.locals, name) == None
         case Some(p) => p.0 < |open| && Resolved(s.locals, name) == Some(Place(open, 0, p))
  {
    EmptyRefines();
    RunMeans(ROOT, es, 0, [Env([], {})], name, token);
  }
}
