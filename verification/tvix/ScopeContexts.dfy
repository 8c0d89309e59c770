// Nested functions and thunks: a stack of contexts, each with a scope of its own, and the
// upvalues that lead from one to the next.
module ScopeContexts {
  import opened Common
  import opened Scope
  import opened ScopeRuns
  import opened ScopeNesting

  /** Where an upvalue of a context comes from: a local or an upvalue of the one around it. */
  datatype UpvalueKind = OfLocal(idx: nat) | OfUpvalue(idx: nat)

  datatype Context = Context(config: Config, upvalues: seq<UpvalueKind>) {
    function Locals(): seq<Local> {
      config.scope.locals
    }
  }

  type Contexts = seq<Context>

  /** `resolve_local` finds `idx` and marks it. */
  function Used(ctx: Context, idx: nat): Context
    requires idx < |ctx.Locals()|
  {
    var s := ctx.config.scope;
    ctx.(config := ctx.config.(scope := s.(locals := s.locals[idx := s.locals[idx].(used := true)])))
  }

  function IndexOf(us: seq<UpvalueKind>, kind: UpvalueKind): (r: Option<nat>)
    ensures r.Some? ==> r.value < |us| && us[r.value] == kind
  {
    if us == [] then None
    else if us[0] == kind then Some(0)
    else match IndexOf(us[1..], kind)
      case None => None
      case Some(i) => Some(i + 1)
  }

  /** The index of the upvalue, and the context that has it. */
  function Added(ctx: Context, kind: UpvalueKind): (Context, nat) {
    match IndexOf(ctx.upvalues, kind)
    case Some(u) => (ctx, u)
    case None => (ctx.(upvalues := ctx.upvalues + [kind]), |ctx.upvalues|)
  }

  function ResolvedUpvalue(ctxs: Contexts, i: nat, name: string): (r: (Contexts, Option<nat>))
    requires i < |ctxs|
    ensures |r.0| == |ctxs|
    decreases i
  {
    if i == 0 then (ctxs, None)
    else match Resolved(ctxs[i - 1].Locals(), name)
      case Some(l) =>
        var (ctx, u) := Added(ctxs[i], OfLocal(l));
        (ctxs[i - 1 := Used(ctxs[i - 1], l)][i := ctx], Some(u))
      case None =>
        var (outer, r) := ResolvedUpvalue(ctxs, i - 1, name);
        match r
        case None => (outer, None)
        case Some(above) =>
          var (ctx, u) := Added(outer[i], OfUpvalue(above));
          (outer[i := ctx], Some(u))
  }

  /** How a name is reached: a local on the frame, one that still waits for its value and is
      reached through a thunk, an upvalue, or none of these. */
  datatype Access = OnFrame(idx: nat) | Awaited(idx: nat) | Upward(u: nat) | Nowhere

  function AccessOf(ctxs: Contexts, name: string): Access
    requires ctxs != []
  {
    var n := |ctxs| - 1;
    match Resolved(ctxs[n].Locals(), name)
    case Some(l) => if ctxs[n].Locals()[l].initialised then OnFrame(l) else Awaited(l)
    case None =>
      match ResolvedUpvalue(ctxs, n, name).1
      case Some(u) => Upward(u)
      case None => Nowhere
  }

  /** `compile_identifier_access`, as far as it changes the contexts. */
  function Accessed(ctxs: Contexts, name: string): Contexts
    requires ctxs != []
  {
    var n := |ctxs| - 1;
    match Resolved(ctxs[n].Locals(), name)
    case Some(l) => ctxs[n := Used(ctxs[n], l)]
    case None => ResolvedUpvalue(ctxs, n, name).0
  }

  class Compiler {
    var contexts: Contexts

    constructor (contexts: Contexts)
      ensures this.contexts == contexts
    {
      this.contexts := contexts;
    }

    /** `resolve_local` in one of the contexts. */
    method ResolveLocal(i: nat, name: string) returns (r: Option<nat>)
      requires i < |contexts|
      modifies this
      ensures r == Resolved(old(contexts)[i].Locals(), name)
      ensures contexts == if r.None? then old(contexts) else old(contexts)[i := Used(old(contexts)[i], r.value)]
    {
      r := Resolved(contexts[i].Locals(), name);
      if r.Some? {
        contexts := contexts[i := Used(contexts[i], r.value)];
      }
    }

    /** `add_upvalue`: one that is there already is used again. */
    method AddUpvalue(i: nat, kind: UpvalueKind) returns (idx: nat)
      requires i < |contexts|
      modifies this
      ensures var (ctx, u) := Added(old(contexts)[i], kind);
        idx == u && contexts == old(contexts)[i := ctx]
    {
      var us := contexts[i].upvalues;
      for k := 0 to |us|
        invariant contexts == old(contexts)
        invariant IndexOf(us, kind) == match IndexOf(us[k..], kind) case None => None case Some(j) => Some(k + j)
      {
        if us[k] == kind {
          return k;
        }
      }
      idx := |us|;
      contexts := contexts[i := contexts[i].(upvalues := us + [kind])];
    }

    /** `new_context` */
    method NewContext()
      requires contexts != []
      modifies this
      ensures contexts == old(contexts) + [Context(Child(old(contexts)[|old(contexts)| - 1].config.scope), [])]
    {
      contexts := contexts + [Context(Child(contexts[|contexts| - 1].config.scope), [])];
    }

    /** `compile_identifier_access`, as far as it changes the contexts. */
    method AccessIdentifier(name: string) returns (r: Access)
      requires contexts != []
      modifies this
      ensures contexts == Accessed(old(contexts), name) && r == AccessOf(old(contexts), name)
    {
      var n := |contexts| - 1;
      var l := ResolveLocal(n, name);
      if l.Some? {
        return if contexts[n].Locals()[l.value].initialised then OnFrame(l.value) else Awaited(l.value);
      }
      var u := ResolveUpvalue(n, name);
      return if u.Some? then Upward(u.value) else Nowhere;
    }

    /** The thunk around the access to a local that is still waiting for its value: its context
        has this one upvalue. */
    method ThunkAwaited(idx: nat) returns (upvalues: seq<UpvalueKind>)
      requires contexts != []
      modifies this
      ensures contexts == old(contexts) && upvalues == [OfLocal(idx)]
    {
      NewContext();
      var n := |contexts| - 1;
      var _ := AddUpvalue(n, OfLocal(idx));
      upvalues := contexts[n].upvalues;
      contexts := contexts[..n];
    }

    /** `resolve_upvalue` */
    method ResolveUpvalue(i: nat, name: string) returns (r: Option<nat>)
      requires i < |contexts|
      modifies this
      ensures (contexts, r) == ResolvedUpvalue(old(contexts), i, name)
      decreases i
    {
      if i == 0 {
        return None;
      }
      var l := ResolveLocal(i - 1, name);
      if l.Some? {
        var u := AddUpvalue(i, OfLocal(l.value));
        return Some(u);
      }
      var above := ResolveUpvalue(i - 1, name);
      if above.Some? {
        var u := AddUpvalue(i, OfUpvalue(above.value));
        return Some(u);
      }
      return None;
    }
  }

  // ---- What an upvalue stands for

  /** The context and the local at the end of the chain. */
  function Denotes(ctxs: Contexts, i: nat, u: nat): Option<(nat, nat)>
    decreases i
  {
    if i == 0 || i >= |ctxs| || u >= |ctxs[i].upvalues| then None
    else match ctxs[i].upvalues[u]
      case OfLocal(l) => Some((i - 1, l))
      case OfUpvalue(above) => Denotes(ctxs, i - 1, above)
  }

  /** The innermost local of the name in the first `n` contexts. */
  function Find(ctxs: Contexts, n: nat, name: string): Option<(nat, nat)>
    requires n <= |ctxs|
  {
    if n == 0 then None
    else match Resolved(ctxs[n - 1].Locals(), name)
      case Some(l) => Some((n - 1, l))
      case None => Find(ctxs, n - 1, name)
  }

  /** Nothing but used marks and new upvalues. */
  ghost predicate Grown(a: Context, b: Context) {
    && SameLocals(b.Locals(), a.Locals())
    && b.config == a.config.(scope := a.config.scope.(locals := b.Locals()))
    && a.upvalues <= b.upvalues
  }

  ghost predicate AllGrown(a: Contexts, b: Contexts) {
    |a| == |b| && forall i :: 0 <= i < |a| ==> Grown(a[i], b[i])
  }

  lemma GrownTwice(a: Contexts, b: Contexts, c: Contexts)
    requires AllGrown(a, b) && AllGrown(b, c)
    ensures AllGrown(a, c)
  {
    forall i | 0 <= i < |a| ensures Grown(a[i], c[i]) {
      assert Grown(a[i], b[i]) && Grown(b[i], c[i]);
      assert forall k :: 0 <= k < |a[i].Locals()| ==>
        SameLocal(b[i].Locals()[k], a[i].Locals()[k]) && SameLocal(c[i].Locals()[k], b[i].Locals()[k]);
    }
  }

  lemma {:induction false} DenotesStays(a: Contexts, b: Contexts, i: nat, u: nat)
    requires AllGrown(a, b) && Denotes(a, i, u).Some?
    ensures Denotes(b, i, u) == Denotes(a, i, u)
    decreases i
  {
    assert Grown(a[i], b[i]);
    hide SameLocals;
    if a[i].upvalues[u].OfUpvalue? {
      DenotesStays(a, b, i - 1, a[i].upvalues[u].idx);
    }
  }

  lemma Unchanged(a: Contexts)
    ensures AllGrown(a, a)
  {}

  lemma AddedGrows(ctxs: Contexts, i: nat, kind: UpvalueKind)
    requires i < |ctxs|
    ensures var (ctx, u) := Added(ctxs[i], kind);
      AllGrown(ctxs, ctxs[i := ctx]) && u < |ctx.upvalues| && ctx.upvalues[u] == kind
  {}

  lemma UsedGrows(ctxs: Contexts, i: nat, l: nat)
    requires i < |ctxs| && l < |ctxs[i].Locals()|
    ensures AllGrown(ctxs, ctxs[i := Used(ctxs[i], l)])
  {}

  /** Main result: `resolve_upvalue` finds an upvalue exactly if a context around has a local of
      the name, and then the chain leads to the innermost one; all other chains stay. */
  lemma {:induction false} UpvalueMeans(ctxs: Contexts, i: nat, name: string)
    requires i < |ctxs|
    ensures var (ctxs', r) := ResolvedUpvalue(ctxs, i, name);
      && AllGrown(ctxs, ctxs')
      && (r.Some? <==> Find(ctxs, i, name).Some?)
      && (r.Some? ==> Denotes(ctxs', i, r.value) == Find(ctxs, i, name))
    decreases i
  {
    hide AllGrown, Added, Used, Resolved;
    if i == 0 {
      Unchanged(ctxs);
    } else {
      var l := Resolved(ctxs[i - 1].Locals(), name);
      if l.Some? {
        var marked := ctxs[i - 1 := Used(ctxs[i - 1], l.value)];
        UsedGrows(ctxs, i - 1, l.value);
        AddedGrows(marked, i, OfLocal(l.value));
        GrownTwice(ctxs, marked, marked[i := Added(ctxs[i], OfLocal(l.value)).0]);
      } else {
        UpvalueMeans(ctxs, i - 1, name);
        var (outer, r) := ResolvedUpvalue(ctxs, i - 1, name);
        if r.Some? {
          AddedGrows(outer, i, OfUpvalue(r.value));
          var ctxs' := outer[i := Added(outer[i], OfUpvalue(r.value)).0];
          GrownTwice(ctxs, outer, ctxs');
          DenotesStays(outer, ctxs', i - 1, r.value);
        }
      }
    }
  }

  // ---- The contexts as one stack of environments

  /** All environments that are open, and for every context its first one. */
  datatype Nest = Nest(envs: Envs, bases: seq<nat>)

  ghost predicate NestRefined(ctxs: Contexts, nest: Nest) {
    && |ctxs| == |nest.bases|
    && if ctxs == [] then nest.envs == []
       else
         var n := |ctxs| - 1;
         && nest.bases[n] <= |nest.envs|
         && Refines(ctxs[n].config.scope, nest.bases[n], nest.envs)
         && NestRefined(ctxs[..n], Nest(nest.envs[..nest.bases[n]], nest.bases[..n]))
  }

  lemma {:induction false} LookupBelow(envs: Envs, base: nat, name: string)
    requires base <= |envs|
    ensures Lookup(envs, 0, name)
         == match Lookup(envs, base, name) case Some(p) => Some(p) case None => Lookup(envs[..base], 0, name)
    ensures Lookup(envs, base, name).Some? ==> base <= Lookup(envs, base, name).value.0 < |envs|
  {
    if |envs| > base {
      var d := |envs| - 1;
      LookupBelow(envs[..d], base, name);
      assert envs[..d][..base] == envs[..base];
    } else {
      assert envs[..base] == envs;
    }
  }

  lemma PlaceBelow(envs: Envs, base: nat, base': nat, p: (nat, nat))
    requires p.0 < base <= |envs|
    ensures Place(envs[..base], base', p) == Place(envs, base', p)
  {
    assert envs[..base][..p.0] == envs[..p.0];
  }

  /** What `Find` gives is the innermost binding of all environments. */
  ghost predicate IsInnermost(found: Option<(nat, nat)>, nest: Nest, name: string) {
    match Lookup(nest.envs, 0, name)
    case None => found == None
    case Some(p) =>
      && found.Some? && found.value.0 < |nest.bases|
      && var j := found.value.0;
         && nest.bases[j] <= p.0 < |nest.envs|
         && (j + 1 < |nest.bases| ==> p.0 < nest.bases[j + 1])
         && found.value.1 == Place(nest.envs, nest.bases[j], p)
  }

  lemma {:induction false} FindIsInnermost(ctxs: Contexts, nest: Nest, name: string)
    requires NestRefined(ctxs, nest)
    ensures IsInnermost(Find(ctxs, |ctxs|, name), nest, name)
    decreases |ctxs|
  {
    hide Refines, Resolved, Place;
    if ctxs != [] {
      var n := |ctxs| - 1;
      var (base, s) := (nest.bases[n], ctxs[n].config.scope);
      ResolvesInnermost(s, base, nest.envs, name);
      LookupBelow(nest.envs, base, name);
      if Resolved(s.locals, name).None? {
        var below := Nest(nest.envs[..base], nest.bases[..n]);
        FindIsInnermost(ctxs[..n], below, name);
        FindPrefix(ctxs, n, name);
        var r := Lookup(nest.envs[..base], 0, name);
        if r.Some? {
          var j := Find(ctxs, n, name).value.0;
          assert below.bases[j] == nest.bases[j] && (j + 1 < n ==> below.bases[j + 1] == nest.bases[j + 1]);
          PlaceBelow(nest.envs, base, nest.bases[j], r.value);
        }
      }
    }
  }

  lemma {:induction false} FindPrefix(ctxs: Contexts, n: nat, name: string)
    requires n <= |ctxs|
    ensures Find(ctxs[..n], n, name) == Find(ctxs, n, name)
    decreases n
  {
    hide Resolved;
    if n > 0 {
      FindPrefix(ctxs[..n], n - 1, name);
      FindPrefix(ctxs, n - 1, name);
      assert ctxs[..n][..n - 1] == ctxs[..n - 1];
    }
  }

  // ---- Runs

  /** A step of the compiler: an event in the innermost context, a new context, the end of one
      with the value that it leaves to the context around, an access to a name, and the upvalue
      of a context made for a local that still waits for its value. */
  datatype Act = In(e: Event) | Enter | Leave(v: Val) | Look(name: string) | Capture(l: nat)

  /** All contexts keep their stacks. */
  ghost predicate AllInv(ctxs: Contexts) {
    ctxs != [] && forall i :: 0 <= i < |ctxs| ==> Inv(ctxs[i].config)
  }

  ghost predicate MayDo(ctxs: Contexts, a: Act)
    requires AllInv(ctxs)
  {
    var n := |ctxs| - 1;
    match a
    case In(e) => Allowed(ctxs[n].config, e)
    case Enter => true
    case Leave(_) => n > 0 && ctxs[n].config.frame != [] && ctxs[n].config.temps <= 1
    case Look(_) => true
    case Capture(l) => n > 0 && l < |ctxs[n - 1].Locals()|
  }

  ghost function Do(ctxs: Contexts, a: Act): Contexts
    requires AllInv(ctxs) && MayDo(ctxs, a)
  {
    var n := |ctxs| - 1;
    match a
    case In(e) => ctxs[n := ctxs[n].(config := Step(ctxs[n].config, e))]
    case Enter => ctxs + [Context(Child(ctxs[n].config.scope), [])]
    case Leave(v) => ctxs[..n][n - 1 := ctxs[n - 1].(config := Step(ctxs[n - 1].config, Evaluate(v)))]
    case Look(name) => Accessed(ctxs, name)
    case Capture(l) => ctxs[n := Added(ctxs[n], OfLocal(l)).0]
  }

  ghost predicate Solid(nest: Nest) {
    nest.envs != [] && nest.bases != [] && nest.bases[|nest.bases| - 1] < |nest.envs|
  }

  ghost function NestStep(nest: Nest, a: Act): Nest
    requires Solid(nest)
  {
    var n := |nest.bases| - 1;
    match a
    case In(e) => nest.(envs := EnvStep(nest.envs, e))
    case Enter => Nest(nest.envs + [Env([], {})], nest.bases + [|nest.envs|])
    case Leave(_) => Nest(nest.envs[..nest.bases[n]], nest.bases[..n])
    case Look(_) | Capture(_) => nest
  }

  lemma RefinedSolid(ctxs: Contexts, nest: Nest)
    requires ctxs != [] && NestRefined(ctxs, nest)
    ensures Solid(nest) && nest.bases[|ctxs| - 1] <= ctxs[|ctxs| - 1].config.scope.depth
  {
    hide Flat, Outline;
  }

  /** Used marks do not show. */
  lemma {:induction false} GrownRefined(a: Contexts, b: Contexts, nest: Nest)
    requires AllGrown(a, b) && NestRefined(a, nest)
    ensures NestRefined(b, nest)
    decreases |a|
  {
    if a != [] {
      var n := |a| - 1;
      assert Grown(a[n], b[n]);
      assert forall i :: 0 <= i < |a[n].Locals()| ==> SameLocal(b[n].Locals()[i], a[n].Locals()[i]);
      MarkRefines(a[n].config.scope, nest.bases[n], nest.envs, b[n].config.scope);
      hide Refines;
      GrownRefined(a[..n], b[..n], Nest(nest.envs[..nest.bases[n]], nest.bases[..n]));
    }
  }

  lemma GrownInv(a: Contexts, b: Contexts)
    requires AllGrown(a, b) && AllInv(a)
    ensures AllInv(b)
  {
    hide Inv;
    forall i | 0 <= i < |b| ensures Inv(b[i].config) {
      assert Grown(a[i], b[i]);
      KeepsUsed(a[i].config, b[i].Locals());
    }
    assert forall i :: 0 <= i < |b| ==> Grown(a[i], b[i]);
  }

  lemma AccessGrows(ctxs: Contexts, name: string)
    requires ctxs != []
    ensures AllGrown(ctxs, Accessed(ctxs, name))
  {
    var n := |ctxs| - 1;
    var r := Resolved(ctxs[n].Locals(), name);
    hide AllGrown, Resolved, Used, ResolvedUpvalue;
    if r.Some? {
      UsedGrows(ctxs, n, r.value);
    } else {
      UpvalueMeans(ctxs, n, name);
    }
  }

  lemma TopInv(ctxs: Contexts, ctx: Context)
    requires AllInv(ctxs) && Inv(ctx.config)
    ensures AllInv(ctxs[|ctxs| - 1 := ctx])
  {
    hide Inv;
  }

  lemma PushInv(ctxs: Contexts, ctx: Context)
    requires AllInv(ctxs) && Inv(ctx.config)
    ensures AllInv(ctxs + [ctx])
  {
    hide Inv;
  }

  lemma PopInv(ctxs: Contexts)
    requires AllInv(ctxs) && |ctxs| > 1
    ensures AllInv(ctxs[..|ctxs| - 1])
  {
    hide Inv;
  }

  lemma InvAt(ctxs: Contexts, i: nat)
    requires AllInv(ctxs) && i < |ctxs|
    ensures Inv(ctxs[i].config)
  {
    hide Inv;
  }

  lemma DoKeepsInv(ctxs: Contexts, a: Act)
    requires AllInv(ctxs) && MayDo(ctxs, a)
    ensures AllInv(Do(ctxs, a))
  {
    var n := |ctxs| - 1;
    hide AllInv, Inv, Step, Accessed, AllGrown, Child;
    NotNone(ctxs);
    InvAt(ctxs, n);
    match a
    case In(e) =>
      Keeps(ctxs[n].config, e);
      TopInv(ctxs, ctxs[n].(config := Step(ctxs[n].config, e)));
    case Enter =>
      ChildInv(ctxs[n].config);
      PushInv(ctxs, Context(Child(ctxs[n].config.scope), []));
    case Leave(v) =>
      PopInv(ctxs);
      InvAt(ctxs, n - 1);
      Keeps(ctxs[n - 1].config, Evaluate(v));
      TopInv(ctxs[..n], ctxs[n - 1].(config := Step(ctxs[n - 1].config, Evaluate(v))));
    case Look(name) =>
      AccessGrows(ctxs, name);
      GrownInv(ctxs, Accessed(ctxs, name));
    case Capture(l) =>
      AddedGrows(ctxs, n, OfLocal(l));
      GrownInv(ctxs, Do(ctxs, a));
  }

  /** An event in a context leaves the environments of the contexts around alone. */
  lemma EnvStepAbove(c: Config, e: Event, base: nat, envs: Envs)
    requires Inv(c) && Allowed(c, e) && Refines(c.scope, base, envs)
    ensures envs != [] && base <= |EnvStep(envs, e)| && EnvStep(envs, e)[..base] == envs[..base]
  {
    NotEmpty(c.scope, base, envs);
    if e.Close? || e.Collect? || e.CollectInto? {
      AboveBase(c.scope, base, envs);
    }
    hide Inv, Flat, Outline, KeptCount, Bound;
  }

  lemma TopRefined(ctxs: Contexts, nest: Nest, ctx: Context, envs: Envs)
    requires ctxs != [] && NestRefined(ctxs, nest)
    requires var (n, base) := (|ctxs| - 1, nest.bases[|ctxs| - 1]);
      base <= |envs| && envs[..base] == nest.envs[..base] && Refines(ctx.config.scope, base, envs)
    ensures NestRefined(ctxs[|ctxs| - 1 := ctx], nest.(envs := envs))
  {
    hide Refines;
    var n := |ctxs| - 1;
    assert ctxs[n := ctx][..n] == ctxs[..n];
  }

  lemma InRefines(ctxs: Contexts, nest: Nest, e: Event)
    requires AllInv(ctxs) && MayDo(ctxs, In(e)) && NestRefined(ctxs, nest) && Solid(nest)
    ensures NestRefined(Do(ctxs, In(e)), NestStep(nest, In(e)))
  {
    var n := |ctxs| - 1;
    hide Refines, Inv, Step, EnvStep;
    var c := ctxs[n].config;
    StepRefines(c, e, nest.bases[n], nest.envs);
    EnvStepAbove(c, e, nest.bases[n], nest.envs);
    TopRefined(ctxs, nest, ctxs[n].(config := Step(c, e)), EnvStep(nest.envs, e));
  }

  lemma PushRefined(ctxs: Contexts, nest: Nest, ctx: Context, env: Env)
    requires NestRefined(ctxs, nest) && Refines(ctx.config.scope, |nest.envs|, nest.envs + [env])
    ensures NestRefined(ctxs + [ctx], Nest(nest.envs + [env], nest.bases + [|nest.envs|]))
  {
    hide Refines;
    var (n, all) := (|ctxs|, ctxs + [ctx]);
    assert all[..n] == ctxs && all[n] == ctx;
    assert (nest.envs + [env])[..|nest.envs|] == nest.envs;
    assert (nest.bases + [|nest.envs|])[..n] == nest.bases;
  }

  lemma EnterRefines(ctxs: Contexts, nest: Nest)
    requires AllInv(ctxs) && MayDo(ctxs, Enter) && NestRefined(ctxs, nest) && Solid(nest)
    ensures NestRefined(Do(ctxs, Enter), NestStep(nest, Enter))
  {
    var n := |ctxs| - 1;
    hide Refines, Inv;
    InheritRefines(ctxs[n].config.scope, nest.bases[n], nest.envs);
    NotEmpty(ctxs[n].config.scope, nest.bases[n], nest.envs);
    hide NestRefined;
    PushRefined(ctxs, nest, Context(Child(ctxs[n].config.scope), []), Env([], {}));
  }

  lemma PopRefined(ctxs: Contexts, nest: Nest)
    requires ctxs != [] && NestRefined(ctxs, nest)
    ensures Solid(nest) && NestRefined(ctxs[..|ctxs| - 1], NestStep(nest, Leave(0)))
  {
    RefinedSolid(ctxs, nest);
    hide Refines;
  }

  lemma LeaveRefines(ctxs: Contexts, nest: Nest, v: Val)
    requires AllInv(ctxs) && MayDo(ctxs, Leave(v)) && NestRefined(ctxs, nest) && Solid(nest)
    ensures NestRefined(Do(ctxs, Leave(v)), NestStep(nest, Leave(v)))
  {
    var n := |ctxs| - 1;
    hide Inv, Refines, Step;
    PopRefined(ctxs, nest);
    var (below, outer) := (NestStep(nest, Leave(0)), ctxs[n - 1].config);
    EvaluateRefines(outer, v, below.bases[n - 1], below.envs);
    TopRefined(ctxs[..n], below, ctxs[n - 1].(config := Step(outer, Evaluate(v))), below.envs);
  }

  lemma EvaluateRefines(c: Config, v: Val, base: nat, envs: Envs)
    requires Inv(c) && Refines(c.scope, base, envs)
    ensures Refines(Step(c, Evaluate(v)).scope, base, envs)
  {
    hide Inv, Flat, Outline;
  }

  /** Every step does to the contexts what it does to the environments. */
  lemma DoRefines(ctxs: Contexts, nest: Nest, a: Act)
    requires AllInv(ctxs) && MayDo(ctxs, a) && NestRefined(ctxs, nest)
    ensures Solid(nest) && NestRefined(Do(ctxs, a), NestStep(nest, a))
  {
    RefinedSolid(ctxs, nest);
    hide Refines, Inv, Accessed, AllGrown, Step, EnvStep;
    match a
    case In(e) => InRefines(ctxs, nest, e);
    case Enter => EnterRefines(ctxs, nest);
    case Leave(v) => LeaveRefines(ctxs, nest, v);
    case Look(name) =>
      AccessGrows(ctxs, name);
      GrownRefined(ctxs, Accessed(ctxs, name), nest);
    case Capture(l) =>
      AddedGrows(ctxs, |ctxs| - 1, OfLocal(l));
      GrownRefined(ctxs, Do(ctxs, a), nest);
  }

  ghost predicate IsWork(ctxs: Contexts, acts: seq<Act>)
    requires AllInv(ctxs)
    decreases |acts|
  {
    acts != [] ==> MayDo(ctxs, acts[0]) && (DoKeepsInv(ctxs, acts[0]); IsWork(Do(ctxs, acts[0]), acts[1..]))
  }

  ghost function Worked(ctxs: Contexts, acts: seq<Act>): (ctxs': Contexts)
    requires AllInv(ctxs) && IsWork(ctxs, acts)
    ensures AllInv(ctxs')
    decreases |acts|
  {
    if acts == [] then ctxs
    else
      DoKeepsInv(ctxs, acts[0]);
      Worked(Do(ctxs, acts[0]), acts[1..])
  }

  ghost function NestWorked(nest: Nest, acts: seq<Act>): Option<Nest>
    decreases |acts|
  {
    if acts == [] then Some(nest)
    else if !Solid(nest) then None
    else NestWorked(NestStep(nest, acts[0]), acts[1..])
  }

  lemma {:induction false} WorkRefines(ctxs: Contexts, nest: Nest, acts: seq<Act>)
    requires AllInv(ctxs) && IsWork(ctxs, acts) && NestRefined(ctxs, nest)
    ensures NestWorked(nest, acts).Some? && NestRefined(Worked(ctxs, acts), NestWorked(nest, acts).value)
    decreases |acts|
  {
    if acts != [] {
      hide AllInv, NestRefined, Do, NestStep, MayDo, Solid;
      DoKeepsInv(ctxs, acts[0]);
      DoRefines(ctxs, nest, acts[0]);
      WorkRefines(Do(ctxs, acts[0]), NestStep(nest, acts[0]), acts[1..]);
    }
  }

  const START: Contexts := [Context(ROOT, [])]

  const NOTHING: Nest := Nest([Env([], {})], [0])

  lemma StartRefined()
    ensures AllInv(START) && NestRefined(START, NOTHING)
  {
    RootInv();
    EmptyRefines();
    hide Refines, Inv;
    assert START[..0] == [] && NOTHING.bases[..0] == [] && NOTHING.envs[..0] == [];
  }

  /** Main result: after any work in any nesting of functions, a token is poisoned in the
      innermost context if and only if some scope has poisoned it that is open, there or
      around; and the search through the contexts finds the innermost of all open bindings. */
  lemma WorkMeans(acts: seq<Act>, name: string, token: string)
    requires AllInv(START) && IsWork(START, acts)
    ensures NestWorked(NOTHING, acts).Some?
    ensures var (ctxs, nest) := (Worked(START, acts), NestWorked(NOTHING, acts).value);
      && (token in ctxs[|ctxs| - 1].config.scope.poisoned <==> SomePoisons(nest.envs, token))
      && IsInnermost(Find(ctxs, |ctxs|, name), nest, name)
  {
    hide IsWork, Worked, NestWorked, IsInnermost, SomePoisons;
    StartRefined();
    WorkRefines(START, NOTHING, acts);
    var (ctxs, nest) := (Worked(START, acts), NestWorked(NOTHING, acts).value);
    FindIsInnermost(ctxs, nest, name);
    var n := |ctxs| - 1;
    assert Refines(ctxs[n].config.scope, nest.bases[n], nest.envs);
    PoisonedIffSomePoisons(ctxs[n].config.scope, nest.bases[n], nest.envs, token);
  }

  /** Main result: so a name that is not a local of the innermost context is given an upvalue
      exactly if it is bound somewhere, and the upvalue leads to its innermost binding. */
  lemma AccessMeans(acts: seq<Act>, name: string)
    requires AllInv(START) && IsWork(START, acts)
    requires var ctxs := Worked(START, acts); Resolved(ctxs[|ctxs| - 1].Locals(), name) == None
    ensures NestWorked(NOTHING, acts).Some?
    ensures var (ctxs, nest) := (Worked(START, acts), NestWorked(NOTHING, acts).value);
      var (ctxs', r) := ResolvedUpvalue(ctxs, |ctxs| - 1, name);
      && (r.Some? <==> Lookup(nest.envs, 0, name).Some?)
      && (r.Some? ==> IsInnermost(Denotes(ctxs', |ctxs| - 1, r.value), nest, name))
  {
    hide IsWork, Worked, NestWorked, Lookup, AllInv, Resolved, Denotes, ResolvedUpvalue;
    WorkMeans(acts, name, "");
    var ctxs := Worked(START, acts);
    assert ctxs != [] by { NotNone(ctxs); }
    UpvalueMeans(ctxs, |ctxs| - 1, name);
  }

  lemma NotNone(ctxs: Contexts)
    requires AllInv(ctxs)
    ensures ctxs != []
  {}

  // ---- Entering and leaving a context

  /** More than `n` contexts are open all the time. */
  ghost predicate StaysAbove(ctxs: Contexts, acts: seq<Act>, n: nat)
    requires AllInv(ctxs) && IsWork(ctxs, acts)
    decreases |acts|
  {
    |ctxs| > n && (acts != [] ==> (DoKeepsInv(ctxs, acts[0]); StaysAbove(Do(ctxs, acts[0]), acts[1..], n)))
  }

  lemma DoAbove(ctxs: Contexts, a: Act, n: nat)
    requires AllInv(ctxs) && MayDo(ctxs, a) && n < |ctxs| && n < |Do(ctxs, a)|
    ensures AllGrown(ctxs[..n], Do(ctxs, a)[..n])
  {
    hide Inv, Step, Accessed, Grown;
    Unchanged(ctxs);
    if a.Look? {
      AccessGrows(ctxs, a.name);
    }
  }

  /** What is open in the first `n` contexts. */
  ghost function Cut(nest: Nest, n: nat): Nest
    requires n < |nest.bases| && nest.bases[n] <= |nest.envs|
  {
    Nest(nest.envs[..nest.bases[n]], nest.bases[..n])
  }

  lemma {:induction false} BasesRise(ctxs: Contexts, nest: Nest, n: nat)
    requires NestRefined(ctxs, nest) && n < |ctxs|
    ensures nest.bases[n] <= nest.bases[|ctxs| - 1] < |nest.envs|
    decreases |ctxs|
  {
    RefinedSolid(ctxs, nest);
    if n < |ctxs| - 1 {
      hide Refines, Solid;
      var m := |ctxs| - 1;
      BasesRise(ctxs[..m], Nest(nest.envs[..nest.bases[m]], nest.bases[..m]), n);
    }
  }

  lemma NestStepCut(nest: Nest, a: Act, n: nat)
    requires Solid(nest) && n < |nest.bases| && n < |NestStep(nest, a).bases|
    requires var m := |nest.bases| - 1;
      && nest.bases[n] <= nest.bases[m]
      && (a.In? ==> nest.bases[m] <= |EnvStep(nest.envs, a.e)|
                    && EnvStep(nest.envs, a.e)[..nest.bases[m]] == nest.envs[..nest.bases[m]])
    ensures var nest' := NestStep(nest, a);
      nest'.bases[n] == nest.bases[n] <= |nest'.envs| && Cut(nest', n) == Cut(nest, n)
  {
    hide EnvStep;
    var (nest', m) := (NestStep(nest, a), |nest.bases| - 1);
    if a.In? {
      assert nest'.envs[..nest.bases[m]][..nest.bases[n]] == nest'.envs[..nest.bases[n]];
      assert nest.envs[..nest.bases[m]][..nest.bases[n]] == nest.envs[..nest.bases[n]];
    }
  }

  lemma SameCount(ctxs: Contexts, nest: Nest, a: Act)
    requires AllInv(ctxs) && MayDo(ctxs, a) && |ctxs| == |nest.bases| && Solid(nest)
    ensures |Do(ctxs, a)| == |NestStep(nest, a).bases|
  {
    hide Inv, Step, EnvStep, Resolved;
  }

  lemma StepCut(ctxs: Contexts, nest: Nest, a: Act, n: nat)
    requires AllInv(ctxs) && MayDo(ctxs, a) && NestRefined(ctxs, nest)
    requires n < |ctxs| && n < |Do(ctxs, a)|
    ensures Solid(nest) && nest.bases[n] <= |nest.envs|
    ensures var nest' := NestStep(nest, a);
      n < |nest'.bases| && nest'.bases[n] == nest.bases[n] <= |nest'.envs| && Cut(nest', n) == Cut(nest, n)
  {
    var m := |ctxs| - 1;
    RefinedSolid(ctxs, nest);
    BasesRise(ctxs, nest, n);
    if a.In? {
      EnvStepAbove(ctxs[m].config, a.e, nest.bases[m], nest.envs);
    }
    SameCount(ctxs, nest, a);
    hide EnvStep, Refines, Inv, Step, Do, NestStep, Cut;
    NestStepCut(nest, a, n);
  }

  lemma {:induction false} WorkAbove(ctxs: Contexts, nest: Nest, acts: seq<Act>, n: nat)
    requires AllInv(ctxs) && IsWork(ctxs, acts) && NestRefined(ctxs, nest) && StaysAbove(ctxs, acts, n)
    ensures n < |Worked(ctxs, acts)| && AllGrown(ctxs[..n], Worked(ctxs, acts)[..n])
    ensures NestWorked(nest, acts).Some?
    ensures var nest' := NestWorked(nest, acts).value;
      && n < |nest.bases| && nest.bases[n] <= |nest.envs|
      && n < |nest'.bases| && nest'.bases[n] <= |nest'.envs| && Cut(nest', n) == Cut(nest, n)
    decreases |acts|
  {
    if acts == [] {
      Unchanged(ctxs[..n]);
      BasesRise(ctxs, nest, n);
    } else {
      hide AllInv, NestRefined, Do, NestStep, MayDo, AllGrown, Cut, Solid;
      DoKeepsInv(ctxs, acts[0]);
      DoRefines(ctxs, nest, acts[0]);
      DoAbove(ctxs, acts[0], n);
      StepCut(ctxs, nest, acts[0], n);
      WorkAbove(Do(ctxs, acts[0]), NestStep(nest, acts[0]), acts[1..], n);
      GrownTwice(ctxs[..n], Do(ctxs, acts[0])[..n], Worked(ctxs, acts)[..n]);
    }
  }

  /** The contexts are as before, up to used marks and new upvalues, but for `v` on top of the
      innermost one's frame. */
  ghost predicate LeftWith(before: Contexts, after: Contexts, v: Val) {
    && 0 < |before| == |after|
    && var n := |before| - 1;
       && AllGrown(before[..n], after[..n])
       && var (b, a) := (before[n].config, after[n].config);
          && a.frame == b.frame + [v] && a.temps == b.temps + 1
          && Grown(before[n], after[n].(config := a.(frame := b.frame, temps := b.temps)))
  }

  /** Main result: a function is entered, compiled and left. The contexts around are as they
      were, up to used marks, new upvalues and the one value on top of the stack; and exactly
      the environments are open that were open before. */
  lemma BalancedContexts(ctxs: Contexts, nest: Nest, acts: seq<Act>, v: Val)
    requires AllInv(ctxs) && NestRefined(ctxs, nest)
    requires AllInv(Do(ctxs, Enter)) && IsWork(Do(ctxs, Enter), acts) && StaysAbove(Do(ctxs, Enter), acts, |ctxs|)
    requires var inner := Worked(Do(ctxs, Enter), acts); |inner| == |ctxs| + 1 && MayDo(inner, Leave(v))
    ensures Solid(nest) && NestWorked(NestStep(nest, Enter), acts).Some?
    ensures var (inner, open) := (Worked(Do(ctxs, Enter), acts), NestWorked(NestStep(nest, Enter), acts).value);
      Solid(open) && NestStep(open, Leave(v)) == nest && LeftWith(ctxs, Do(inner, Leave(v)), v)
  {
    var n := |ctxs|;
    DoRefines(ctxs, nest, Enter);
    EnterCut(ctxs, nest);
    hide Refines, Inv, IsWork, Worked, NestWorked, StaysAbove, AllGrown, Step, EnvStep, AllInv, NestRefined, Solid, MayDo, Do, NestStep, Cut, LeftWith;
    WorkAbove(Do(ctxs, Enter), NestStep(nest, Enter), acts, n);
    WorkRefines(Do(ctxs, Enter), NestStep(nest, Enter), acts);
    var (inner, open) := (Worked(Do(ctxs, Enter), acts), NestWorked(NestStep(nest, Enter), acts).value);
    RefinedSolid(inner, open);
    LeaveCut(inner, open, v);
    LeavesValue(ctxs, inner, v);
  }

  lemma LeavesValue(ctxs: Contexts, inner: Contexts, v: Val)
    requires ctxs != [] && AllInv(inner) && MayDo(inner, Leave(v))
    requires |inner| == |ctxs| + 1 && AllGrown(ctxs, inner[..|ctxs|])
    ensures LeftWith(ctxs, Do(inner, Leave(v)), v)
  {
    hide Inv, SameLocals;
    var n := |ctxs| - 1;
    assert Grown(ctxs[n], inner[n]);
    assert forall i :: 0 <= i < n ==> Grown(ctxs[i], inner[i]);
  }

  lemma LeaveCut(ctxs: Contexts, nest: Nest, v: Val)
    requires AllInv(ctxs) && NestRefined(ctxs, nest) && MayDo(ctxs, Leave(v)) && Solid(nest)
    ensures var n := |ctxs| - 1;
      && n > 0 && n < |nest.bases| && nest.bases[n] <= |nest.envs| && NestStep(nest, Leave(v)) == Cut(nest, n)
      && var outer := Do(ctxs, Leave(v));
         && |outer| == n && outer[..n - 1] == ctxs[..n - 1]
         && outer[n - 1].config == Step(ctxs[n - 1].config, Evaluate(v))
  {
    hide Inv, Refines, EnvStep, Step;
  }

  lemma EnterCut(ctxs: Contexts, nest: Nest)
    requires AllInv(ctxs) && NestRefined(ctxs, nest) && MayDo(ctxs, Enter) && Solid(nest)
    ensures Do(ctxs, Enter)[..|ctxs|] == ctxs
    ensures var entered := NestStep(nest, Enter);
      |ctxs| < |entered.bases| && entered.bases[|ctxs|] <= |entered.envs| && Cut(entered, |ctxs|) == nest
  {
    hide Inv, Refines, EnvStep, Step;
    assert (nest.envs + [Env([], {})])[..|nest.envs|] == nest.envs;
    assert (nest.bases + [|nest.envs|])[..|ctxs|] == nest.bases;
  }
}
