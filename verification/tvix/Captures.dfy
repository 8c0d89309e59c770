// Captured values over the work of the compiler, through any nesting of functions and thunks.
module Captures {
  import opened Common
  import opened Scope
  import opened ScopeRuns
  import opened ScopeNesting
  import opened ScopeContexts
  import opened Upvalues

  // ---- What the work does to one open context is a run

  /** What one step does to the context `n`, which stays open: nothing, or one event. */
  ghost function EventIn(ctxs: Contexts, a: Act, n: nat): seq<Event>
    requires n < |ctxs|
  {
    match a
    case In(e) => if n == |ctxs| - 1 then [e] else []
    case Leave(v) => if n == |ctxs| - 2 then [Evaluate(v)] else []
    case Look(name) => if Accessed(ctxs, name)[n].config == ctxs[n].config then [] else [Resolve(name)]
    case Enter | Capture(_) => []
  }

  /** Looking a name up does to every context what resolving it there would do, or nothing. */
  ghost predicate LooksUp(c: Config, c': Config, name: string) {
    || c' == c
    || (Inv(c) && c' == Step(c, Resolve(name)))
  }

  lemma UsedIsResolve(ctx: Context, name: string)
    requires Inv(ctx.config) && Resolved(ctx.Locals(), name).Some?
    ensures LooksUp(ctx.config, Used(ctx, Resolved(ctx.Locals(), name).value).config, name)
  {
    hide Inv, Resolved;
  }

  lemma {:induction false} UpvalueLooksUp(ctxs: Contexts, i: nat, name: string, n: nat)
    requires i < |ctxs| && n < |ctxs| && forall k :: 0 <= k < |ctxs| ==> Inv(ctxs[k].config)
    ensures LooksUp(ctxs[n].config, ResolvedUpvalue(ctxs, i, name).0[n].config, name)
    decreases i
  {
    hide Inv, Step, Resolved, Used, LooksUp;
    assert LooksUp(ctxs[n].config, ctxs[n].config, name) by { Nothing(ctxs[n].config, name); }
    if i > 0 {
      var l := Resolved(ctxs[i - 1].Locals(), name);
      if l.Some? {
        UsedIsResolve(ctxs[i - 1], name);
      } else {
        UpvalueLooksUp(ctxs, i - 1, name, n);
      }
    }
  }

  lemma Nothing(c: Config, name: string)
    ensures LooksUp(c, c, name)
  {}

  lemma AccessLooksUp(ctxs: Contexts, name: string, n: nat)
    requires AllInv(ctxs) && n < |ctxs|
    ensures LooksUp(ctxs[n].config, Accessed(ctxs, name)[n].config, name)
  {
    hide Inv, Step, Used, LooksUp, Resolved, ResolvedUpvalue;
    var top := |ctxs| - 1;
    Nothing(ctxs[n].config, name);
    if Resolved(ctxs[top].Locals(), name).Some? {
      UsedIsResolve(ctxs[top], name);
    } else {
      UpvalueLooksUp(ctxs, top, name, n);
    }
  }

  /** The local `l` of context `n` is not dropped, and its slot is not used again. */
  ghost predicate StepKeepsLocal(ctxs: Contexts, a: Act, n: nat, l: nat)
    requires n < |ctxs|
  {
    a.In? && n == |ctxs| - 1 ==> !Reuses(ctxs[n].config, a.e, l)
  }

  ghost predicate Stays(ctxs: Contexts, acts: seq<Act>, n: nat, l: nat)
    requires AllInv(ctxs) && IsWork(ctxs, acts)
    decreases |acts|
  {
    && n < |ctxs| && l < |ctxs[n].Locals()|
    && (acts != [] ==>
          StepKeepsLocal(ctxs, acts[0], n, l)
          && (DoKeepsInv(ctxs, acts[0]); Stays(Do(ctxs, acts[0]), acts[1..], n, l)))
  }

  /** `es` is at most one event, and does to the context what was done to it. */
  ghost predicate Does(ctxs: Contexts, a: Act, n: nat, l: nat, c: Config, es: seq<Event>, c': Config)
    requires n < |ctxs| && Inv(c)
  {
    if es == [] then c' == c
    else |es| == 1 && Allowed(c, es[0]) && c' == Step(c, es[0]) && (StepKeepsLocal(ctxs, a, n, l) ==> !Reuses(c, es[0], l))
  }

  lemma LookIsEvents(ctxs: Contexts, name: string, n: nat, l: nat)
    requires AllInv(ctxs) && n < |ctxs| && n < |Accessed(ctxs, name)| && Inv(ctxs[n].config)
    ensures Does(ctxs, Look(name), n, l, ctxs[n].config, EventIn(ctxs, Look(name), n), Accessed(ctxs, name)[n].config)
  {
    hide Inv, AllInv, Step, Accessed, Reuses, Allowed, StepKeepsLocal;
    AccessLooksUp(ctxs, name, n);
    ResolveAllowed(ctxs[n].config, name, l);
  }

  lemma InIsEvents(ctxs: Contexts, e: Event, n: nat, l: nat)
    requires AllInv(ctxs) && MayDo(ctxs, In(e)) && n < |ctxs| && Inv(ctxs[n].config)
    ensures |Do(ctxs, In(e))| == |ctxs|
    ensures Does(ctxs, In(e), n, l, ctxs[n].config, EventIn(ctxs, In(e), n), Do(ctxs, In(e))[n].config)
  {
    hide Inv, Step, Accessed, Reuses, Allowed;
  }

  lemma LeaveIsEvents(ctxs: Contexts, v: Val, n: nat, l: nat)
    requires AllInv(ctxs) && MayDo(ctxs, Leave(v)) && n < |ctxs| - 1 && Inv(ctxs[n].config)
    ensures |Do(ctxs, Leave(v))| == |ctxs| - 1
    ensures Does(ctxs, Leave(v), n, l, ctxs[n].config, EventIn(ctxs, Leave(v), n), Do(ctxs, Leave(v))[n].config)
  {
    hide Inv, Step, Accessed, Reuses, Allowed, StepKeepsLocal;
    EvaluateAllowed(ctxs[n].config, v, l);
  }

  lemma OtherIsEvents(ctxs: Contexts, a: Act, n: nat, l: nat)
    requires AllInv(ctxs) && MayDo(ctxs, a) && n < |ctxs| && Inv(ctxs[n].config) && (a.Enter? || a.Capture?)
    ensures n < |Do(ctxs, a)|
    ensures Does(ctxs, a, n, l, ctxs[n].config, EventIn(ctxs, a, n), Do(ctxs, a)[n].config)
  {
    hide Inv, Step, Accessed, Reuses, Allowed, StepKeepsLocal;
  }

  lemma ActIsEvents(ctxs: Contexts, a: Act, n: nat, l: nat)
    requires AllInv(ctxs) && MayDo(ctxs, a) && n < |ctxs| && n < |Do(ctxs, a)|
    ensures Inv(ctxs[n].config)
    ensures Does(ctxs, a, n, l, ctxs[n].config, EventIn(ctxs, a, n), Do(ctxs, a)[n].config)
  {
    InvAt(ctxs, n);
    hide Inv, AllInv, MayDo, Step, Accessed, Does, EventIn;
    match a
    case In(e) => InIsEvents(ctxs, e, n, l);
    case Look(name) => LookIsEvents(ctxs, name, n, l);
    case Leave(v) => LeaveIsEvents(ctxs, v, n, l);
    case _ => OtherIsEvents(ctxs, a, n, l);
  }

  lemma ResolveAllowed(c: Config, name: string, l: nat)
    ensures Allowed(c, Resolve(name)) && !Reuses(c, Resolve(name), l)
  {}

  lemma EvaluateAllowed(c: Config, v: Val, l: nat)
    ensures Allowed(c, Evaluate(v)) && !Reuses(c, Evaluate(v), l)
  {}

  /** Main result: over any work during which context `n` stays open, what happens to it is a
      disciplined run, and a local that stays is live in that run. */
  lemma {:induction false} WorkIsRun(ctxs: Contexts, acts: seq<Act>, n: nat, ls: set<nat>) returns (es: seq<Event>)
    requires AllInv(ctxs) && IsWork(ctxs, acts) && StaysAbove(ctxs, acts, n)
    requires forall l :: l in ls ==> Stays(ctxs, acts, n, l)
    ensures Inv(ctxs[n].config) && Disciplined(ctxs[n].config, es)
    ensures n < |Worked(ctxs, acts)| && Run(ctxs[n].config, es) == Worked(ctxs, acts)[n].config
    ensures forall l :: l in ls ==> Live(ctxs[n].config, es, l)
    decreases |acts|
  {
    InvAt(ctxs, n);
    if acts == [] {
      es := [];
    } else {
      hide Inv, AllInv, Do, MayDo, Step, Allowed, EventIn, Reuses;
      var a := acts[0];
      DoKeepsInv(ctxs, a);
      var later := WorkIsRun(Do(ctxs, a), acts[1..], n, ls);
      ActIsEvents(ctxs, a, n, 0);
      forall l | l in ls ensures StepKeepsLocal(ctxs, a, n, l) && l < |ctxs[n].Locals()| {
        assert Stays(ctxs, acts, n, l);
      }
      forall l | l in ls ensures EventIn(ctxs, a, n) != [] ==> !Reuses(ctxs[n].config, EventIn(ctxs, a, n)[0], l) {
        ActIsEvents(ctxs, a, n, l);
      }
      hide StepKeepsLocal, Stays;
      if EventIn(ctxs, a, n) == [] {
        es := later;
      } else {
        var e := EventIn(ctxs, a, n)[0];
        Keeps(ctxs[n].config, e);
        es := [e] + later;
        assert es[1..] == later;
      }
    }
  }

  // ---- The values that upvalues have when their function is made

  /** The value that every local of every context has or will get. */
  type Eventual = seq<seq<Val>>

  ghost predicate Within(ev: Eventual, p: (nat, nat)) {
    p.0 < |ev| && p.1 < |ev[p.0]|
  }

  /** The chain of the upvalue ends at a local whose eventual value is `v`. */
  ghost predicate Means(ctxs: Contexts, ev: Eventual, i: nat, u: nat, v: Val) {
    var p := Denotes(ctxs, i, u);
    p.Some? && Within(ev, p.value) && v == ev[p.value.0][p.value.1]
  }

  /** The runtime upvalues of context `i` are the eventual values of the locals that they stand
      for. There may be more than there are upvalues yet. */
  ghost predicate Sound(ctxs: Contexts, ev: Eventual, i: nat, ups: seq<Val>) {
    && i < |ctxs| && |ctxs[i].upvalues| <= |ups|
    && forall u :: 0 <= u < |ctxs[i].upvalues| ==> Means(ctxs, ev, i, u, ups[u])
  }

  lemma OutermostSound(ctxs: Contexts, ev: Eventual)
    requires Fits(ctxs) && ctxs != []
    ensures Sound(ctxs, ev, 0, [])
  {
    assert FitsAt(ctxs, 0);
  }

  /** The end of a context: the contexts with it, the value that it leaves, whether that is on
      the stack before upvalues are captured, and the work done in the contexts around after. */
  datatype Moment = Moment(ctxs: Contexts, v: Val, pushed: seq<Val>, acts: seq<Act>)

  ghost predicate Leaves(m: Moment, k: nat) {
    && k > 0 && |m.ctxs| == k + 1 && AllInv(m.ctxs) && Fits(m.ctxs)
    && (m.pushed == [] || m.pushed == [m.v])
    && MayDo(m.ctxs, Leave(m.v))
    && AllInv(Do(m.ctxs, Leave(m.v))) && IsWork(Do(m.ctxs, Leave(m.v)), m.acts)
    && StaysAbove(Do(m.ctxs, Leave(m.v)), m.acts, k - 1)
  }

  /** The context around, at the end of that work. */
  ghost function Around(m: Moment, k: nat): Config
    requires Leaves(m, k)
  {
    StillOpen(Do(m.ctxs, Leave(m.v)), m.acts, k - 1);
    Worked(Do(m.ctxs, Leave(m.v)), m.acts)[k - 1].config
  }

  lemma {:induction false} StillOpen(ctxs: Contexts, acts: seq<Act>, n: nat)
    requires AllInv(ctxs) && IsWork(ctxs, acts) && StaysAbove(ctxs, acts, n)
    ensures n < |Worked(ctxs, acts)|
    decreases |acts|
  {
    if acts != [] {
      hide AllInv, Do, MayDo;
      DoKeepsInv(ctxs, acts[0]);
      StillOpen(Do(ctxs, acts[0]), acts[1..], n);
    }
  }

  /** By then, local `l` of the context around has got its eventual value. */
  ghost predicate HasGot(m: Moment, k: nat, ev: Eventual, l: nat)
    requires Leaves(m, k)
  {
    var end := Around(m, k);
    && Stays(Do(m.ctxs, Leave(m.v)), m.acts, k - 1, l)
    && l < |end.scope.locals| && end.scope.locals[l].initialised
    && Within(ev, (k - 1, l)) && |end.vals| == |end.scope.locals| && end.vals[l] == ev[k - 1][l]
  }

  ghost predicate AllGot(m: Moment, k: nat, ev: Eventual)
    requires Leaves(m, k)
  {
    forall kind :: kind in m.ctxs[k].upvalues && kind.OfLocal? ==> HasGot(m, k, ev, kind.idx)
  }

  /** What is captured of a local when the context is left, and filled in by the end of the work,
      is its eventual value. */
  lemma LocalCaptured(m: Moment, k: nat, ev: Eventual, ups: seq<Val>, l: nat)
    requires Leaves(m, k) && l < |m.ctxs[k - 1].Locals()| && HasGot(m, k, ev, l)
    ensures Final(m.ctxs[k - 1].config, ups, OfLocal(l), m.pushed, Around(m, k).frame) == Some(ev[k - 1][l])
  {
    hide Final, Inv, Step, AllInv, MayDo, Do, Fits, IsWork, Worked, StaysAbove, Stays, Disciplined, Live, Run;
    var after := Do(m.ctxs, Leave(m.v));
    var c := m.ctxs[k - 1].config;
    LeftConfig(m.ctxs, m.v);
    var es := WorkIsRun(after, m.acts, k - 1, {l});
    CapturedLocal(c, ups, l, m.pushed, m.v, es);
  }

  lemma LeftConfig(ctxs: Contexts, v: Val)
    requires AllInv(ctxs) && MayDo(ctxs, Leave(v))
    ensures var (n, after) := (|ctxs| - 2, Do(ctxs, Leave(v)));
      0 <= n < |after| && Inv(ctxs[n].config) && after[n].config == Step(ctxs[n].config, Evaluate(v))
  {
    hide Inv, Step;
  }

  lemma UpvalueFits(m: Moment, k: nat, u: nat)
    requires Leaves(m, k) && u < |m.ctxs[k].upvalues|
    ensures m.ctxs[k].upvalues[u] in m.ctxs[k].upvalues
    ensures var kind := m.ctxs[k].upvalues[u];
      if kind.OfLocal? then kind.idx < |m.ctxs[k - 1].Locals()| else kind.idx < |m.ctxs[k - 1].upvalues|
  {
    assert FitsAt(m.ctxs, k);
  }

  lemma MeansLocal(m: Moment, k: nat, ev: Eventual, u: nat)
    requires Leaves(m, k) && AllGot(m, k, ev) && u < |m.ctxs[k].upvalues| && m.ctxs[k].upvalues[u].OfLocal?
    ensures HasGot(m, k, ev, m.ctxs[k].upvalues[u].idx) && Within(ev, (k - 1, m.ctxs[k].upvalues[u].idx))
    ensures Means(m.ctxs, ev, k, u, ev[k - 1][m.ctxs[k].upvalues[u].idx])
  {
    UpvalueFits(m, k, u);
    hide AllInv, IsWork, StaysAbove, Fits, Around, Stays;
  }

  lemma UpvalueCaptured(m: Moment, k: nat, ev: Eventual, ups: seq<Val>, u: nat) returns (v: Val)
    requires Leaves(m, k) && AllGot(m, k, ev) && Sound(m.ctxs, ev, k - 1, ups) && u < |m.ctxs[k].upvalues|
    ensures var kind := m.ctxs[k].upvalues[u];
      && (if kind.OfLocal? then kind.idx < |m.ctxs[k - 1].Locals()| else kind.idx < |ups|)
      && Final(m.ctxs[k - 1].config, ups, kind, m.pushed, Around(m, k).frame) == Some(v)
      && Means(m.ctxs, ev, k, u, v)
  {
    UpvalueFits(m, k, u);
    var kind := m.ctxs[k].upvalues[u];
    hide Leaves, Around, Means, AllGot, HasGot;
    if kind.OfLocal? {
      MeansLocal(m, k, ev, u);
      v := ev[k - 1][kind.idx];
      LocalCaptured(m, k, ev, ups, kind.idx);
    } else {
      v := ups[kind.idx];
      assert Means(m.ctxs, ev, k - 1, kind.idx, v);
      SizeOf(m, k);
      MeansAbove(m.ctxs, ev, k, u, v);
    }
  }

  lemma SizeOf(m: Moment, k: nat)
    requires Leaves(m, k)
    ensures 0 < k < |m.ctxs|
  {
    hide AllInv, IsWork, StaysAbove, Fits;
  }

  lemma MeansAbove(ctxs: Contexts, ev: Eventual, k: nat, u: nat, v: Val)
    requires 0 < k < |ctxs| && u < |ctxs[k].upvalues| && ctxs[k].upvalues[u].OfUpvalue?
    requires Means(ctxs, ev, k - 1, ctxs[k].upvalues[u].idx, v)
    ensures Means(ctxs, ev, k, u, v)
  {}

  /** `made` is what becomes of the upvalues of context `k`, captured from a context with the
      upvalues `ups`. */
  ghost predicate MadeOf(m: Moment, k: nat, ups: seq<Val>, made: seq<Val>)
    requires Leaves(m, k)
  {
    && |made| == |m.ctxs[k].upvalues|
    && forall u :: 0 <= u < |made| ==> MadeAt(m, k, ups, u, made[u])
  }

  ghost predicate MadeAt(m: Moment, k: nat, ups: seq<Val>, u: nat, v: Val)
    requires Leaves(m, k) && u < |m.ctxs[k].upvalues|
  {
    var kind := m.ctxs[k].upvalues[u];
    && (if kind.OfLocal? then kind.idx < |m.ctxs[k - 1].Locals()| else kind.idx < |ups|)
    && Final(m.ctxs[k - 1].config, ups, kind, m.pushed, Around(m, k).frame) == Some(v)
  }

  ghost predicate MadeRight(m: Moment, k: nat, ev: Eventual, ups: seq<Val>, u: nat, v: Val)
    requires Leaves(m, k) && u < |m.ctxs[k].upvalues|
  {
    MadeAt(m, k, ups, u, v) && Means(m.ctxs, ev, k, u, v)
  }

  ghost predicate AllRight(m: Moment, k: nat, ev: Eventual, ups: seq<Val>, made: seq<Val>)
    requires Leaves(m, k) && |made| <= |m.ctxs[k].upvalues|
  {
    forall u :: 0 <= u < |made| ==> MadeRight(m, k, ev, ups, u, made[u])
  }

  lemma OneMoreRight(m: Moment, k: nat, ev: Eventual, ups: seq<Val>, made: seq<Val>, v: Val)
    requires Leaves(m, k) && |made| < |m.ctxs[k].upvalues|
    requires AllRight(m, k, ev, ups, made) && MadeRight(m, k, ev, ups, |made|, v)
    ensures AllRight(m, k, ev, ups, made + [v])
  {
    SizeOf(m, k);
    hide Leaves, MadeRight, MadeAt, Means, Final, Around, AllInv, MayDo, Do, Fits, IsWork, Worked, StaysAbove, Denotes, Within;
    var all := made + [v];
    assert all[|made|] == v && forall u :: 0 <= u < |made| ==> all[u] == made[u];
  }

  lemma {:induction false} FirstMade(m: Moment, k: nat, ev: Eventual, ups: seq<Val>, n: nat) returns (made: seq<Val>)
    requires Leaves(m, k) && AllGot(m, k, ev) && Sound(m.ctxs, ev, k - 1, ups) && n <= |m.ctxs[k].upvalues|
    ensures |made| == n && AllRight(m, k, ev, ups, made)
    decreases n
  {
    SizeOf(m, k);
    if n == 0 {
      made := [];
    } else {
      hide *;
      var v := OneMade(m, k, ev, ups, n - 1);
      var front := FirstMade(m, k, ev, ups, n - 1);
      OneMoreRight(m, k, ev, ups, front, v);
      made := front + [v];
    }
  }

  lemma OneMade(m: Moment, k: nat, ev: Eventual, ups: seq<Val>, u: nat) returns (v: Val)
    requires Leaves(m, k) && AllGot(m, k, ev) && Sound(m.ctxs, ev, k - 1, ups) && u < |m.ctxs[k].upvalues|
    ensures MadeRight(m, k, ev, ups, u, v)
  {
    hide Leaves, AllGot, Sound, Means, Around, Final;
    v := UpvalueCaptured(m, k, ev, ups, u);
  }

  /** Main result: if the upvalues of the context around are the values that their locals have or
      will get, then so are those of every closure or thunk made in it, deferred ones included. */
  lemma CapturesMeant(m: Moment, k: nat, ev: Eventual, ups: seq<Val>) returns (made: seq<Val>)
    requires Leaves(m, k) && AllGot(m, k, ev) && Sound(m.ctxs, ev, k - 1, ups)
    ensures MadeOf(m, k, ups, made) && Sound(m.ctxs, ev, k, made)
  {
    SizeOf(m, k);
    hide Leaves, Around, AllGot, MadeAt, Means, Sound;
    made := FirstMade(m, k, ev, ups, |m.ctxs[k].upvalues|);
    RightIsSound(m, k, ev, ups, made);
  }

  lemma RightIsSound(m: Moment, k: nat, ev: Eventual, ups: seq<Val>, made: seq<Val>)
    requires Leaves(m, k) && |made| == |m.ctxs[k].upvalues|
    requires AllRight(m, k, ev, ups, made)
    ensures MadeOf(m, k, ups, made) && Sound(m.ctxs, ev, k, made)
  {
    SizeOf(m, k);
    hide Leaves, MadeAt, Means;
    assert forall u :: 0 <= u < |made| ==> MadeRight(m, k, ev, ups, u, made[u]);
  }

  /** Up to context `k`, there are no upvalues in `a` that are not in `b`. */
  ghost predicate Earlier(a: Contexts, b: Contexts, k: nat) {
    k < |a| && k < |b| && forall j :: 0 <= j <= k ==> a[j].upvalues <= b[j].upvalues
  }

  lemma {:induction false} DenotesEarlier(a: Contexts, b: Contexts, k: nat, u: nat)
    requires Earlier(a, b, k) && Denotes(a, k, u).Some?
    ensures Denotes(b, k, u) == Denotes(a, k, u)
    decreases k
  {
    if a[k].upvalues[u].OfUpvalue? {
      DenotesEarlier(a, b, k - 1, a[k].upvalues[u].idx);
    }
  }

  /** Upvalues that are right in the end were right for everything that was made before. */
  lemma SoundEarlier(a: Contexts, b: Contexts, ev: Eventual, k: nat, ups: seq<Val>)
    requires Fits(a) && Earlier(a, b, k) && Sound(b, ev, k, ups)
    ensures Sound(a, ev, k, ups)
  {
    hide Fits;
    forall u | 0 <= u < |a[k].upvalues| ensures Means(a, ev, k, u, ups[u]) {
      ChainsEnd(a, k, u);
      DenotesEarlier(a, b, k, u);
      assert Means(b, ev, k, u, ups[u]);
    }
  }

  /** Nested contexts: `ms[i]` is the end of context `i + 1`, which comes after that of the
      context within it. */
  ghost predicate Nested(ms: seq<Moment>, ev: Eventual) {
    && (forall i :: 0 <= i < |ms| ==> Leaves(ms[i], i + 1) && AllGot(ms[i], i + 1, ev))
    && (forall i :: 0 <= i < |ms| - 1 ==> Earlier(ms[i + 1].ctxs, ms[i].ctxs, i + 1))
  }

  ghost predicate MadeIn(m: Moment, k: nat, ev: Eventual, ups: seq<Val>, made: seq<Val>) {
    Leaves(m, k) && MadeOf(m, k, ups, made) && Sound(m.ctxs, ev, k, made)
  }

  /** `upss[i]` are the upvalues of context `i`, each made from those of the one around. */
  ghost predicate AllMade(ms: seq<Moment>, ev: Eventual, upss: seq<seq<Val>>) {
    && |upss| == |ms| + 1 && upss[0] == []
    && forall i :: 0 <= i < |ms| ==> MadeIn(ms[i], i + 1, ev, upss[i], upss[i + 1])
  }

  lemma NestedFront(ms: seq<Moment>, ev: Eventual)
    requires Nested(ms, ev) && ms != []
    ensures Nested(ms[..|ms| - 1], ev)
    ensures Leaves(ms[|ms| - 1], |ms|) && AllGot(ms[|ms| - 1], |ms|, ev)
  {
    hide Leaves, AllGot, Earlier;
    assert Leaves(ms[|ms| - 1], |ms| - 1 + 1);
  }

  lemma AllMadeSnoc(ms: seq<Moment>, ev: Eventual, upss: seq<seq<Val>>, made: seq<Val>)
    requires ms != [] && AllMade(ms[..|ms| - 1], ev, upss) && MadeIn(ms[|ms| - 1], |ms|, ev, upss[|ms| - 1], made)
    ensures AllMade(ms, ev, upss + [made])
  {
    hide MadeIn;
    var (n, all) := (|ms| - 1, upss + [made]);
    forall i | 0 <= i < |ms| ensures MadeIn(ms[i], i + 1, ev, all[i], all[i + 1]) {
      if i < n {
        assert ms[..n][i] == ms[i];
        assert MadeIn(ms[..n][i], i + 1, ev, upss[i], upss[i + 1]);
      }
    }
  }

  /** Main result: so in any nesting of functions and thunks, from the outermost inwards, every
      upvalue of every one of them is the value of the local that the name stands for. */
  lemma {:induction false} NestingSound(ms: seq<Moment>, ev: Eventual) returns (upss: seq<seq<Val>>)
    requires Nested(ms, ev)
    ensures AllMade(ms, ev, upss)
    decreases |ms|
  {
    if ms == [] {
      upss := [[]];
    } else {
      hide Nested, AllMade;
      NestedFront(ms, ev);
      var front := NestingSound(ms[..|ms| - 1], ev);
      upss := OneMore(ms, ev, front);
    }
  }

  lemma OneMore(ms: seq<Moment>, ev: Eventual, front: seq<seq<Val>>) returns (upss: seq<seq<Val>>)
    requires Nested(ms, ev) && ms != [] && AllMade(ms[..|ms| - 1], ev, front)
    ensures AllMade(ms, ev, upss)
  {
    hide *;
    var n := |ms|;
    NestedFront(ms, ev);
    LastMade(ms, ev, front);
    var ups := front[n - 1];
    AroundSound(ms, ev, ups);
    var made := CapturesMeant(ms[n - 1], n, ev, ups);
    IsMadeIn(ms[n - 1], n, ev, ups, made);
    AllMadeSnoc(ms, ev, front, made);
    upss := front + [made];
  }

  lemma IsMadeIn(m: Moment, k: nat, ev: Eventual, ups: seq<Val>, made: seq<Val>)
    requires Leaves(m, k) && MadeOf(m, k, ups, made) && Sound(m.ctxs, ev, k, made)
    ensures MadeIn(m, k, ev, ups, made)
  {}

  lemma LastMade(ms: seq<Moment>, ev: Eventual, upss: seq<seq<Val>>)
    requires ms != [] && AllMade(ms[..|ms| - 1], ev, upss)
    ensures |upss| == |ms|
    ensures if |ms| == 1 then upss[|ms| - 1] == [] else Sound(ms[|ms| - 2].ctxs, ev, |ms| - 1, upss[|ms| - 1])
  {
    hide Leaves, MadeOf, Sound;
    if |ms| > 1 {
      var front := ms[..|ms| - 1];
      assert MadeIn(front[|ms| - 2], |ms| - 2 + 1, ev, upss[|ms| - 2], upss[|ms| - 1]);
    }
  }

  lemma AroundSound(ms: seq<Moment>, ev: Eventual, ups: seq<Val>)
    requires Nested(ms, ev) && ms != []
    requires if |ms| == 1 then ups == [] else Sound(ms[|ms| - 2].ctxs, ev, |ms| - 1, ups)
    ensures Sound(ms[|ms| - 1].ctxs, ev, |ms| - 1, ups)
  {
    var n := |ms|;
    NestedFront(ms, ev);
    assert Fits(ms[n - 1].ctxs) && ms[n - 1].ctxs != [];
    hide Leaves, AllGot, Sound, Fits, Earlier;
    if n == 1 {
      OutermostSound(ms[0].ctxs, ev);
    } else {
      assert Earlier(ms[n - 2 + 1].ctxs, ms[n - 2].ctxs, n - 2 + 1);
      SoundEarlier(ms[n - 1].ctxs, ms[n - 2].ctxs, ev, n - 1, ups);
    }
  }

  // ---- A function that calls itself

  /** A function that refers to the local it is going to be bound to, whose value it is: all that
      is asked above holds, so its own upvalue is itself. */
  lemma CapturesItself(ctxs: Contexts, v: Val, l: nat, ev: Eventual)
    requires AllInv(ctxs) && Fits(ctxs) && MayDo(ctxs, Leave(v)) && ctxs[|ctxs| - 1].upvalues == [OfLocal(l)]
    requires ctxs[|ctxs| - 2].config.temps == 0 && NextPending(ctxs[|ctxs| - 2].config.scope, l)
    requires Within(ev, (|ctxs| - 2, l)) && ev[|ctxs| - 2][l] == v
    ensures var (m, k) := (Moment(ctxs, v, [v], [In(MarkInitialised(l))]), |ctxs| - 1);
      Leaves(m, k) && AllGot(m, k, ev)
  {
    var (k, a) := (|ctxs| - 1, In(MarkInitialised(l)));
    var m := Moment(ctxs, v, [v], [a]);
    var after := Do(ctxs, Leave(v));
    DoKeepsInv(ctxs, Leave(v));
    LeftConfig(ctxs, v);
    var c := ctxs[k - 1].config;
    InvAt(ctxs, k - 1);
    Marks(c, v, l);
    assert MayDo(after, a);
    DoKeepsInv(after, a);
    var last := Do(after, a);
    assert m.acts[1..] == [];
    hide Inv, Step, Fits, Do, NextPending;
    assert IsWork(last, []) && Worked(last, []) == last && StaysAbove(last, [], k - 1) && Stays(last, [], k - 1, l);
    assert IsWork(after, m.acts) && Worked(after, m.acts) == last;
    assert StaysAbove(after, m.acts, k - 1);
    assert Leaves(m, k);
    assert Around(m, k) == last[k - 1].config;
    assert HasGot(m, k, ev, l);
  }

  lemma Marks(c: Config, v: Val, l: nat)
    requires Inv(c) && c.temps == 0 && NextPending(c.scope, l)
    ensures var c1 := Step(c, Evaluate(v));
      && Inv(c1) && Allowed(c1, MarkInitialised(l)) && c1.scope == c.scope && l < |c.scope.locals|
      && var c2 := Step(c1, MarkInitialised(l));
         |c2.scope.locals| == |c.scope.locals| && c2.scope.locals[l].initialised
         && |c2.vals| == |c2.scope.locals| && c2.vals[l] == v
  {
    Keeps(c, Evaluate(v));
    hide Bound, Ordered, InOrder, PoisonedBelow;
  }
}
