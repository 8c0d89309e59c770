// What a closure or a thunk captures: the data behind its instruction, the values that the
// machine makes of them, and those that are filled in later.
module Upvalues {
  import opened Common
  import opened Scope
  import opened ScopeRuns
  import opened ScopeNesting
  import opened ScopeContexts

  datatype Data = StackIdx(slot: nat) | DeferredLocal(slot: nat) | UpvalueIdx(u: nat)

  /** A captured value, or the slot from which it will be taken. */
  datatype Captured = Captured(v: Val) | Deferred(slot: nat)

  /** What an upvalue of the inner context becomes in the code of the context around. */
  function Emitted(s: ScopeState, kind: UpvalueKind): Data
    requires kind.OfLocal? ==> kind.idx < |s.locals|
  {
    match kind
    case OfUpvalue(u) => UpvalueIdx(u)
    case OfLocal(l) => if s.locals[l].initialised then StackIdx(StackIndex(s, l)) else DeferredLocal(StackIndex(s, l))
  }

  /** `emit_upvalue_data`; `finalise` says that something has to be filled in later. */
  method EmitUpvalueData(s: ScopeState, upvalues: seq<UpvalueKind>) returns (data: seq<Data>, finalise: bool)
    requires forall kind :: kind in upvalues && kind.OfLocal? ==> kind.idx < |s.locals|
    ensures |data| == |upvalues| && forall k :: 0 <= k < |data| ==> data[k] == Emitted(s, upvalues[k])
    ensures finalise <==> exists k :: 0 <= k < |data| && data[k].DeferredLocal?
  {
    data, finalise := [], false;
    for k := 0 to |upvalues|
      invariant |data| == k && forall j :: 0 <= j < k ==> data[j] == Emitted(s, upvalues[j])
      invariant finalise <==> exists j :: 0 <= j < k && data[j].DeferredLocal?
    {
      match upvalues[k]
      case OfLocal(idx) =>
        var stackIdx := StackIndex(s, idx);
        if !s.locals[idx].initialised {
          data, finalise := data + [DeferredLocal(stackIdx)], true;
          assert data[k].DeferredLocal?;
        } else {
          data := data + [StackIdx(stackIdx)];
        }
      case OfUpvalue(idx) =>
        data := data + [UpvalueIdx(idx)];
    }
  }

  /** What the machine makes of one piece of data; none when the slot is not there. */
  function Populated(frame: seq<Val>, ups: seq<Val>, d: Data): Option<Captured>
    requires d.UpvalueIdx? ==> d.u < |ups|
  {
    match d
    case StackIdx(slot) => if slot < |frame| then Some(Captured(frame[slot])) else None
    case DeferredLocal(slot) => Some(Deferred(slot))
    case UpvalueIdx(u) => Some(Captured(ups[u]))
  }

  function FilledIn(c: Captured, frame: seq<Val>): Option<Val> {
    match c
    case Captured(v) => Some(v)
    case Deferred(slot) => if slot < |frame| then Some(frame[slot]) else None
  }

  class RuntimeUpvalues {
    var statics: seq<Captured>

    constructor ()
      ensures statics == []
    {
      statics := [];
    }

    /** `populate_upvalues`, in a frame that has the upvalues `ups`. */
    method Populate(frame: seq<Val>, ups: seq<Val>, data: seq<Data>) returns (ok: bool)
      requires statics == [] && forall d :: d in data && d.UpvalueIdx? ==> d.u < |ups|
      modifies this
      ensures ok <==> forall d :: d in data ==> Populated(frame, ups, d).Some?
      ensures ok ==> |statics| == |data| && forall k :: 0 <= k < |data| ==> Populated(frame, ups, data[k]) == Some(statics[k])
    {
      for k := 0 to |data|
        invariant |statics| == k && forall j :: 0 <= j < k ==> Populated(frame, ups, data[j]) == Some(statics[j])
      {
        var c := Populated(frame, ups, data[k]);
        if c.None? {
          return false;
        }
        statics := statics + [c.value];
      }
      return true;
    }

    /** `resolve_deferred_upvalues`: what is there stays, the rest is taken from the frame. */
    method ResolveDeferred(frame: seq<Val>)
      requires forall c :: c in statics ==> FilledIn(c, frame).Some?
      modifies this
      ensures |statics| == |old(statics)|
      ensures forall k :: 0 <= k < |statics| ==> statics[k].Captured? && FilledIn(old(statics)[k], frame) == Some(statics[k].v)
    {
      for k := 0 to |statics|
        invariant |statics| == |old(statics)|
        invariant forall j :: 0 <= j < k ==> statics[j].Captured? && FilledIn(old(statics)[j], frame) == Some(statics[j].v)
        invariant forall j :: k <= j < |statics| ==> statics[j] == old(statics)[j]
      {
        assert old(statics)[k] in old(statics);
        if statics[k].Deferred? {
          statics := statics[k := Captured(frame[statics[k].slot])];
        }
      }
    }
  }

  // ---- Chains are well-formed

  ghost predicate FitsAt(ctxs: Contexts, i: nat)
    requires i < |ctxs|
  {
    if i == 0 then ctxs[i].upvalues == []
    else forall kind :: kind in ctxs[i].upvalues ==>
      if kind.OfLocal? then kind.idx < |ctxs[i - 1].Locals()| else kind.idx < |ctxs[i - 1].upvalues|
  }

  ghost predicate Fits(ctxs: Contexts) {
    forall i :: 0 <= i < |ctxs| ==> FitsAt(ctxs, i)
  }

  lemma FitsAdded(ctxs: Contexts, i: nat, kind: UpvalueKind)
    requires Fits(ctxs) && 0 < i < |ctxs|
    requires if kind.OfLocal? then kind.idx < |ctxs[i - 1].Locals()| else kind.idx < |ctxs[i - 1].upvalues|
    ensures var (ctx, u) := Added(ctxs[i], kind); Fits(ctxs[i := ctx]) && u < |ctx.upvalues|
  {
    var ctxs' := ctxs[i := Added(ctxs[i], kind).0];
    forall k | 0 <= k < |ctxs'| ensures FitsAt(ctxs', k) {
      assert FitsAt(ctxs, k);
    }
  }

  lemma FitsUsed(ctxs: Contexts, i: nat, l: nat)
    requires Fits(ctxs) && i < |ctxs| && l < |ctxs[i].Locals()|
    ensures Fits(ctxs[i := Used(ctxs[i], l)])
  {
    var ctxs' := ctxs[i := Used(ctxs[i], l)];
    forall k | 0 <= k < |ctxs'| ensures FitsAt(ctxs', k) {
      assert FitsAt(ctxs, k);
    }
  }

  lemma {:induction false} FitsResolved(ctxs: Contexts, i: nat, name: string)
    requires Fits(ctxs) && i < |ctxs|
    ensures var (ctxs', r) := ResolvedUpvalue(ctxs, i, name);
      Fits(ctxs') && (r.Some? ==> r.value < |ctxs'[i].upvalues|)
    decreases i
  {
    hide Fits, Added, Used, Resolved;
    if i > 0 {
      var l := Resolved(ctxs[i - 1].Locals(), name);
      if l.Some? {
        FitsUsed(ctxs, i - 1, l.value);
        UsedKeeps(ctxs[i - 1], l.value);
        FitsAdded(ctxs[i - 1 := Used(ctxs[i - 1], l.value)], i, OfLocal(l.value));
      } else {
        FitsResolved(ctxs, i - 1, name);
        var (outer, r) := ResolvedUpvalue(ctxs, i - 1, name);
        if r.Some? {
          FitsAdded(outer, i, OfUpvalue(r.value));
        }
      }
    }
  }

  lemma UsedKeeps(ctx: Context, l: nat)
    requires l < |ctx.Locals()|
    ensures |Used(ctx, l).Locals()| == |ctx.Locals()|
  {}

  lemma DoKeepsFits(ctxs: Contexts, a: Act)
    requires AllInv(ctxs) && MayDo(ctxs, a) && Fits(ctxs)
    ensures Fits(Do(ctxs, a))
  {
    var n := |ctxs| - 1;
    match a
    case Look(name) =>
      hide Fits, Inv;
      if Resolved(ctxs[n].Locals(), name).Some? {
        FitsUsed(ctxs, n, Resolved(ctxs[n].Locals(), name).value);
      } else {
        FitsResolved(ctxs, n, name);
      }
    case Capture(l) =>
      hide Fits, Inv;
      FitsAdded(ctxs, n, OfLocal(l));
    case _ =>
      hide Inv, Step, Child;
      forall i | 0 <= i < |Do(ctxs, a)| ensures FitsAt(Do(ctxs, a), i) {
        if i < |ctxs| {
          assert FitsAt(ctxs, i);
        }
      }
  }

  /** Over every work from the start, every upvalue leads somewhere. */
  lemma {:induction false} WorkKeepsFits(ctxs: Contexts, acts: seq<Act>)
    requires AllInv(ctxs) && IsWork(ctxs, acts) && Fits(ctxs)
    ensures Fits(Worked(ctxs, acts))
    decreases |acts|
  {
    if acts != [] {
      hide AllInv, MayDo, Do, Fits;
      DoKeepsInv(ctxs, acts[0]);
      DoKeepsFits(ctxs, acts[0]);
      WorkKeepsFits(Do(ctxs, acts[0]), acts[1..]);
    }
  }

  lemma {:induction false} ChainsEnd(ctxs: Contexts, i: nat, u: nat)
    requires Fits(ctxs) && i < |ctxs| && u < |ctxs[i].upvalues|
    ensures Denotes(ctxs, i, u).Some?
    ensures var (j, l) := Denotes(ctxs, i, u).value; j < i && l < |ctxs[j].Locals()|
    decreases i
  {
    assert FitsAt(ctxs, i);
    assert ctxs[i].upvalues[u] in ctxs[i].upvalues;
    if ctxs[i].upvalues[u].OfUpvalue? {
      ChainsEnd(ctxs, i - 1, ctxs[i].upvalues[u].idx);
    }
  }

  // ---- The value that is captured

  /** What becomes of one upvalue: the data, the capture while the value `v` of the closure or
      thunk may already be on the stack, and the resolution in a later frame. */
  ghost function Final(c: Config, ups: seq<Val>, kind: UpvalueKind, pushed: seq<Val>, frame: seq<Val>): Option<Val>
    requires if kind.OfLocal? then kind.idx < |c.scope.locals| else kind.idx < |ups|
  {
    match Populated(c.frame + pushed, ups, Emitted(c.scope, kind))
    case None => None
    case Some(captured) => FilledIn(captured, frame)
  }

  lemma CapturedNow(c: Config, ups: seq<Val>, l: nat, pushed: seq<Val>)
    requires Inv(c) && l < |c.scope.locals| && c.scope.locals[l].initialised
    ensures Populated(c.frame + pushed, ups, Emitted(c.scope, OfLocal(l))) == Some(Captured(c.vals[l]))
  {
    InitialisedSlot(c, l);
    hide Inv, StackIndex;
  }

  lemma EvaluateKeeps(c: Config, v: Val)
    requires Inv(c)
    ensures Step(c, Evaluate(v)).scope == c.scope && Step(c, Evaluate(v)).vals == c.vals
  {
    hide Inv;
  }

  /** Main result: what is captured of a local, at once or after the fact, is its value, at
      every later time at which the local still exists and has one. */
  lemma CapturedLocal(c: Config, ups: seq<Val>, l: nat, pushed: seq<Val>, v: Val, es: seq<Event>)
    requires Inv(c) && l < |c.scope.locals| && (pushed == [] || pushed == [v])
    requires Inv(Step(c, Evaluate(v))) && Disciplined(Step(c, Evaluate(v)), es) && Live(Step(c, Evaluate(v)), es, l)
    requires var end := Run(Step(c, Evaluate(v)), es); l < |end.scope.locals| && end.scope.locals[l].initialised
    ensures var end := Run(Step(c, Evaluate(v)), es);
      Final(c, ups, OfLocal(l), pushed, end.frame) == Some(end.vals[l])
  {
    var c1 := Step(c, Evaluate(v));
    hide Inv, Disciplined, Live, Run, StackIndex, Step;
    EvaluateKeeps(c, v);
    PredictedSlot(c1, es, l);
    SlotFixed(c1, es, l);
    if c.scope.locals[l].initialised {
      CapturedNow(c, ups, l, pushed);
      hide Populated, Emitted;
    }
  }
}
