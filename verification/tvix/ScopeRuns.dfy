// The simulated stack and the real one, side by side, over whole runs of the compiler:
// scope events on one side, what the emitted instructions do to the frame on the other.
module ScopeRuns {
  import opened Scope

  type Val = nat

  /** A scope, the value bound to each of its locals (once initialised), and the runtime
      stack of the frame. The last `temps` values of the frame are those that no local has
      taken over: operands, arguments, parts of strings, results. */
  datatype Config = Config(scope: ScopeState, vals: seq<Val>, frame: seq<Val>, temps: nat)

  datatype Event =
    | Begin
    | Declare(name: string, span: Span)
    | DeclarePhantom(span: Span, initialised: bool)
    | MarkInitialised(idx: nat)
    | Resolve(name: string)
    | Poison(token: string)
    | Evaluate(v: Val)
    | Discard
    | GetLocal(idx: nat)
    | Close
    | Collect(v: Val)
    | CollectInto(v: Val)

  // What the instructions do to a frame.

  /** `OpCloseScope` */
  function CloseScope(frame: seq<Val>, count: nat): (f: seq<Val>)
    requires 1 <= count < |frame|
  {
    frame[..|frame| - 1 - count] + [frame[|frame| - 1]]
  }

  /** The virtual machine's part: a frame sees the stack from its offset upwards. */
  class FrameStack {
    var stack: seq<Val>
    const offset: nat

    constructor (stack: seq<Val>, offset: nat)
      ensures this.stack == stack && this.offset == offset
    {
      this.stack := stack;
      this.offset := offset;
    }

    ghost function Frame(): seq<Val>
      requires offset <= |stack|
      reads this
    {
      stack[offset..]
    }

    method Pop() returns (v: Val)
      requires stack != []
      modifies this
      ensures stack == old(stack)[..|old(stack)| - 1] && v == old(stack)[|old(stack)| - 1]
    {
      v := stack[|stack| - 1];
      stack := stack[..|stack| - 1];
    }

    /** `OpCloseScope(count)`: the top value moves into its position, the rest is popped. */
    method OpCloseScope(count: nat)
      requires offset <= |stack| && 1 <= count < |Frame()|
      modifies this
      ensures offset <= |stack| && stack[..offset] == old(stack)[..offset]
      ensures Frame() == CloseScope(old(Frame()), count)
    {
      var target := |stack| - 1 - count;
      var v := Pop();
      stack := stack[target := v];
      for k := 0 to count - 1
        invariant |stack| == |old(stack)| - 1 - k
        invariant stack == old(stack)[..target] + [v] + old(stack)[target + 1..|stack|]
      {
        var _ := Pop();
      }
    }

    /** `OpGetLocal(idx)` */
    method OpGetLocal(idx: nat)
      requires offset <= |stack| && idx < |Frame()|
      modifies this
      ensures offset <= |stack| && stack[..offset] == old(stack)[..offset]
      ensures Frame() == old(Frame()) + [old(Frame())[idx]]
    {
      stack := stack + [stack[offset + idx]];
    }
  }

  /** The values of the initialised locals, in order. */
  ghost function Bound(locals: seq<Local>, vals: seq<Val>): (b: seq<Val>)
    requires |vals| == |locals|
    ensures |b| == InitialisedCount(locals)
  {
    if locals == [] then []
    else
      var n := |locals| - 1;
      Bound(locals[..n], vals[..n]) + if locals[n].initialised then [vals[n]] else []
  }

  /** Depths never decrease from one local to the next. */
  ghost predicate Ordered(locals: seq<Local>, depth: nat) {
    && (forall i, j :: 0 <= i < j < |locals| ==> locals[i].depth <= locals[j].depth)
    && (forall i :: 0 <= i < |locals| ==> locals[i].depth <= depth)
  }

  /** Of two locals of one scope, the later one is not initialised before the earlier one. */
  ghost predicate InOrder(locals: seq<Local>) {
    forall i, j :: 0 <= i < j < |locals| && locals[i].depth == locals[j].depth && locals[j].initialised
      ==> locals[i].initialised
  }

  ghost predicate PoisonedBelow(s: ScopeState) {
    forall t :: t in s.poisoned ==> s.poisoned[t] <= s.depth
  }

  /** The values of locals on the frame, and the others on top of them. */
  ghost predicate Stacked(frame: seq<Val>, bound: seq<Val>, temps: nat) {
    temps <= |frame| && frame[..|frame| - temps] == bound
  }

  /** The invariant: the initialised locals are the frame's stack. */
  ghost predicate Inv(c: Config) {
    && |c.vals| == |c.scope.locals|
    && Ordered(c.scope.locals, c.scope.depth)
    && InOrder(c.scope.locals)
    && PoisonedBelow(c.scope)
    && Stacked(c.frame, Bound(c.scope.locals, c.vals), c.temps)
  }

  /** No local of the current scope waits for its value. */
  ghost predicate NonePending(s: ScopeState) {
    forall i :: 0 <= i < |s.locals| && s.locals[i].depth == s.depth ==> s.locals[i].initialised
  }

  /** `idx` is the first local of its scope that waits for its value, and its scope is the
      current one, or nothing has been declared behind it. */
  ghost predicate NextPending(s: ScopeState, idx: nat) {
    && idx < |s.locals| && !s.locals[idx].initialised
    && (s.locals[idx].depth == s.depth || idx == |s.locals| - 1)
    && forall i :: 0 <= i < idx && s.locals[i].depth == s.locals[idx].depth ==> s.locals[i].initialised
  }

  /** A list can be collected into the slot of the last local that stays when the scope of its
      items ends: it has the first item in it, and nobody can read it by name. */
  ghost predicate Collects(s: ScopeState) {
    && s.depth > 0 && KeptCount(s.locals, s.depth) > 0
    && var slot := s.locals[KeptCount(s.locals, s.depth) - 1];
       slot.name.Phantom? && slot.initialised
  }

  /** The discipline of the compiler that drives the scope. */
  ghost predicate Allowed(c: Config, e: Event) {
    match e
    case Begin => c.temps == 0
    case Declare(_, _) => true
    case DeclarePhantom(_, initialised) => initialised ==> c.temps == 1 && NonePending(c.scope)
    case MarkInitialised(idx) => idx < |c.scope.locals| && (c.scope.locals[idx].initialised || (c.temps == 1 && NextPending(c.scope, idx)))
    case Resolve(_) => true
    case Poison(_) => true
    case Evaluate(_) => true
    case Discard => c.temps > 0
    case GetLocal(idx) => idx < |c.scope.locals| && c.scope.locals[idx].initialised
    case Close =>
      && (c.temps == 1 || (c.temps == 0 && Pops(c.scope) == 0))
      && c.scope.depth > 0 && KeptCount(c.scope.locals, c.scope.depth) > 0
    case Collect(_) => c.temps == 0 && c.scope.depth > 0 && KeptCount(c.scope.locals, c.scope.depth) > 0
    case CollectInto(_) => c.temps == 0 && Collects(c.scope)
  }

  ghost function EndedConfig(c: Config, frame: seq<Val>, temps: nat): Config
    requires Inv(c) && c.scope.depth > 0
  {
    Config(Ended(c.scope), c.vals[..KeptCount(c.scope.locals, c.scope.depth)], frame, temps)
  }

  /** One event. `GetLocal` reads the slot that the compiler computes with `stack_index`; a
      local that has its value already can be marked again, to no effect;
      `Close` emits `OpCloseScope` with the count that `end_scope` returns, unless it is 0;
      `Collect` is the end of a scope whose locals an instruction has packed into `v`, and
      `CollectInto` that of the scope of a list, whose first item lies in the list's own slot. */
  ghost function Step(c: Config, e: Event): Config
    requires Inv(c) && Allowed(c, e)
  {
    match e
    case Begin => c.(scope := c.scope.(depth := c.scope.depth + 1))
    case Declare(name, span) =>
      c.(scope := Declared(c.scope, Ident(name), span, false), vals := c.vals + [0])
    case DeclarePhantom(span, initialised) =>
      if initialised then
        c.(scope := Declared(c.scope, Phantom, span, true), vals := c.vals + [Top(c)], temps := 0)
      else
        c.(scope := Declared(c.scope, Phantom, span, false), vals := c.vals + [0])
    case MarkInitialised(idx) =>
      if c.scope.locals[idx].initialised then c
      else c.(scope := Initialised(c.scope, idx), vals := c.vals[idx := Top(c)], temps := 0)
    case Resolve(name) =>
      (match Resolved(c.scope.locals, name)
       case None => c
       case Some(idx) => c.(scope := c.scope.(locals := c.scope.locals[idx := c.scope.locals[idx].(used := true)])))
    case Poison(token) => c.(scope := Poisoned(c.scope, token, c.scope.depth))
    case Evaluate(v) => c.(frame := c.frame + [v], temps := c.temps + 1)
    case Discard => c.(frame := c.frame[..|c.frame| - 1], temps := c.temps - 1)
    case GetLocal(idx) =>
      InitialisedSlot(c, idx);
      c.(frame := c.frame + [c.frame[StackIndex(c.scope, idx)]], temps := c.temps + 1)
    case Close => EndedConfig(c, FrameAfterClose(c), c.temps)
    case Collect(v) => EndedConfig(c, FrameAfterCollect(c) + [v], 1)
    case CollectInto(v) => Rebound(EndedConfig(c, FrameAfterCollect(c), 0), v)
  }

  /** The last value on the frame, which is that of the last local, is replaced. */
  ghost function Rebound(c: Config, v: Val): Config {
    if c.vals == [] || c.frame == [] then c
    else c.(vals := c.vals[|c.vals| - 1 := v], frame := c.frame[|c.frame| - 1 := v])
  }

  /** The value on top that no local has taken over. */
  ghost function Top(c: Config): Val
    requires Inv(c) && c.temps > 0
  {
    c.frame[|c.frame| - 1]
  }

  /** The values of the locals that stay when the scope ends. */
  ghost function KeptVals(c: Config): seq<Val>
    requires Inv(c)
  {
    var kept := KeptCount(c.scope.locals, c.scope.depth);
    Bound(c.scope.locals[..kept], c.vals[..kept])
  }

  ghost function FrameAfterClose(c: Config): seq<Val>
    requires Inv(c) && (c.temps == 1 || Pops(c.scope) == 0)
  {
    PopsWithin(c);
    var count := Pops(c.scope);
    if count > 0 then CloseScope(c.frame, count) else c.frame
  }

  ghost function FrameAfterCollect(c: Config): seq<Val>
    requires Inv(c)
  {
    PopsWithin(c);
    c.frame[..|c.frame| - Pops(c.scope)]
  }

  lemma PopsWithin(c: Config)
    requires Inv(c)
    ensures Pops(c.scope) <= InitialisedCount(c.scope.locals)
  {
    var kept := KeptCount(c.scope.locals, c.scope.depth);
    assert c.scope.locals == c.scope.locals[..kept] + c.scope.locals[kept..];
    CountsAppend(c.scope.locals[..kept], c.scope.locals[kept..]);
  }

  // Where locals are.

  /** If what is not initialised belongs to shallower scopes, then `stack_index` subtracts
      exactly the locals that are missing from the stack. */
  lemma {:induction false} PendingComplement(locals: seq<Local>, d: nat)
    requires forall i :: 0 <= i < |locals| ==> locals[i].initialised || locals[i].depth < d
    ensures Pending(locals, d) + InitialisedCount(locals) == |locals|
  {
    if locals != [] {
      PendingComplement(locals[..|locals| - 1], d);
    }
  }

  lemma BoundSnoc(a: seq<Local>, va: seq<Val>, l: Local, v: Val)
    requires |a| == |va|
    ensures Bound(a + [l], va + [v]) == Bound(a, va) + if l.initialised then [v] else []
  {
    assert (a + [l])[..|a|] == a && (va + [v])[..|a|] == va;
  }

  lemma BoundNil()
    ensures Bound([], []) == []
  {}

  lemma {:induction false} BoundAppend(a: seq<Local>, va: seq<Val>, b: seq<Local>, vb: seq<Val>)
    requires |a| == |va| && |b| == |vb|
    ensures Bound(a + b, va + vb) == Bound(a, va) + Bound(b, vb)
  {
    hide Bound;
    if b == [] {
      BoundNil();
      assert a + b == a && va + vb == va;
    } else {
      var n := |b| - 1;
      BoundAppend(a, va, b[..n], vb[..n]);
      BoundSnoc(b[..n], vb[..n], b[n], vb[n]);
      BoundSnoc(a + b[..n], va + vb[..n], b[n], vb[n]);
      assert b[..n] + [b[n]] == b && vb[..n] + [vb[n]] == vb;
      assert (a + b[..n]) + [b[n]] == a + b && (va + vb[..n]) + [vb[n]] == va + vb;
    }
  }

  /** The stack, cut at the place of one local. */
  lemma BoundSplit(locals: seq<Local>, vals: seq<Val>, idx: nat)
    requires |locals| == |vals| && idx < |locals|
    ensures Bound(locals, vals)
         == Bound(locals[..idx], vals[..idx])
            + (if locals[idx].initialised then [vals[idx]] else [])
            + Bound(locals[idx + 1..], vals[idx + 1..])
  {
    var (l, v) := ([locals[idx]], [vals[idx]]);
    assert l[..0] == [] && v[..0] == [];
    assert locals == locals[..idx] + l + locals[idx + 1..];
    assert vals == vals[..idx] + v + vals[idx + 1..];
    BoundAppend(locals[..idx], vals[..idx], l, v);
    BoundAppend(locals[..idx] + l, vals[..idx] + v, locals[idx + 1..], vals[idx + 1..]);
  }

  lemma {:induction false} BoundNone(locals: seq<Local>, vals: seq<Val>)
    requires |locals| == |vals| && forall i :: 0 <= i < |locals| ==> !locals[i].initialised
    ensures Bound(locals, vals) == []
  {
    if locals != [] {
      BoundNone(locals[..|locals| - 1], vals[..|locals| - 1]);
    }
  }

  /** `stack_index` of an initialised local is its true slot. */
  lemma InitialisedSlot(c: Config, idx: nat)
    requires Inv(c) && idx < |c.scope.locals| && c.scope.locals[idx].initialised
    ensures StackIndex(c.scope, idx) < |c.frame| && c.frame[StackIndex(c.scope, idx)] == c.vals[idx]
  {
    var locals := c.scope.locals;
    PendingComplement(locals[..idx], locals[idx].depth);
    BoundSplit(locals, c.vals, idx);
  }

  /** `stack_index` of the next local to be initialised is the slot at which its value lies. */
  lemma PendingSlot(c: Config, idx: nat)
    requires Inv(c) && Allowed(c, MarkInitialised(idx)) && !c.scope.locals[idx].initialised
    ensures StackIndex(c.scope, idx) == |c.frame| - 1
  {
    var locals := c.scope.locals;
    PendingComplement(locals[..idx], locals[idx].depth);
    BoundSplit(locals, c.vals, idx);
    NothingBehind(c, idx);
  }

  /** Behind the next pending local nothing is on the stack yet. */
  lemma NothingBehind(c: Config, idx: nat)
    requires Inv(c) && NextPending(c.scope, idx)
    ensures Bound(c.scope.locals[idx + 1..], c.vals[idx + 1..]) == []
    ensures forall i :: idx < i < |c.scope.locals| ==> !c.scope.locals[i].initialised
  {
    BoundNone(c.scope.locals[idx + 1..], c.vals[idx + 1..]);
  }

  // Every event keeps the invariant.

  lemma KeepsDeclare(c: Config, name: LocalName, span: Span, initialised: bool, v: Val, temps: nat)
    requires Inv(c)
    requires initialised ==> NonePending(c.scope) && c.temps == 1 && v == c.frame[|c.frame| - 1] && temps == 0
    requires !initialised ==> temps == c.temps
    ensures Inv(c.(scope := Declared(c.scope, name, span, initialised), vals := c.vals + [v], temps := temps))
  {
    var l := Local(name, span, c.scope.depth, initialised, name.Phantom?, false, false);
    BoundSnoc(c.scope.locals, c.vals, l, v);
    hide Bound;
  }

  lemma MarkedBound(c: Config, idx: nat, v: Val)
    requires Inv(c) && NextPending(c.scope, idx)
    ensures Bound(Initialised(c.scope, idx).locals, c.vals[idx := v]) == Bound(c.scope.locals, c.vals) + [v]
  {
    var (locals, locals') := (c.scope.locals, Initialised(c.scope, idx).locals);
    var vals' := c.vals[idx := v];
    NothingBehind(c, idx);
    BoundSplit(locals, c.vals, idx);
    BoundSplit(locals', vals', idx);
    hide Bound;
    assert locals'[..idx] == locals[..idx] && vals'[..idx] == c.vals[..idx];
    assert locals'[idx + 1..] == locals[idx + 1..] && vals'[idx + 1..] == c.vals[idx + 1..];
  }

  lemma MarkedShape(c: Config, idx: nat)
    requires Inv(c) && NextPending(c.scope, idx)
    ensures Ordered(Initialised(c.scope, idx).locals, c.scope.depth) && InOrder(Initialised(c.scope, idx).locals)
  {
    hide Bound, Stacked, PoisonedBelow;
  }

  lemma MarkedFrame(frame: seq<Val>, bound: seq<Val>)
    requires Stacked(frame, bound, 1)
    ensures Stacked(frame, bound + [frame[|frame| - 1]], 0)
  {
    assert frame[..|frame|] == frame[..|frame| - 1] + [frame[|frame| - 1]];
  }

  lemma KeepsMark(c: Config, idx: nat)
    requires Inv(c) && Allowed(c, MarkInitialised(idx))
    ensures Inv(Step(c, MarkInitialised(idx)))
  {
    if !c.scope.locals[idx].initialised {
      assert |c.frame| > 0;
      hide Bound, Stacked, Ordered, InOrder, NextPending, PoisonedBelow;
      MarkedShape(c, idx);
      MarkedBound(c, idx, Top(c));
      MarkedFrame(c.frame, Bound(c.scope.locals, c.vals));
    }
  }

  /** Nothing but the used marks of the locals has changed. */
  ghost predicate SameLocals(a: seq<Local>, b: seq<Local>) {
    |a| == |b| && forall i :: 0 <= i < |a| ==> SameLocal(a[i], b[i])
  }

  lemma KeepsUsed(c: Config, locals': seq<Local>)
    requires Inv(c) && SameLocals(locals', c.scope.locals)
    ensures Inv(c.(scope := c.scope.(locals := locals')))
  {
    hide Bound;
    BoundSame(locals', c.scope.locals, c.vals);
    assert forall i :: 0 <= i < |locals'| ==>
      locals'[i].depth == c.scope.locals[i].depth && locals'[i].initialised == c.scope.locals[i].initialised;
    hide SameLocals, SameLocal;
  }

  lemma KeepsResolve(c: Config, name: string)
    requires Inv(c)
    ensures Inv(Step(c, Resolve(name)))
  {
    hide Bound, Resolved, Ordered, InOrder, PoisonedBelow, Inv;
    var r := Resolved(c.scope.locals, name);
    if r.Some? {
      var locals' := c.scope.locals[r.value := c.scope.locals[r.value].(used := true)];
      KeepsUsed(c, locals');
    }
  }

  /** Ending a scope leaves the values of the remaining locals. */
  lemma EndedFrame(c: Config)
    requires Inv(c)
    ensures Pops(c.scope) <= InitialisedCount(c.scope.locals)
    ensures KeptVals(c) == Bound(c.scope.locals, c.vals)[..InitialisedCount(c.scope.locals) - Pops(c.scope)]
  {
    PopsWithin(c);
    var kept := KeptCount(c.scope.locals, c.scope.depth);
    var locals := c.scope.locals;
    assert locals == locals[..kept] + locals[kept..] && c.vals == c.vals[..kept] + c.vals[kept..];
    BoundAppend(locals[..kept], c.vals[..kept], locals[kept..], c.vals[kept..]);
  }

  lemma FrameSize(c: Config)
    requires Inv(c)
    ensures |c.frame| == InitialisedCount(c.scope.locals) + c.temps
  {
    hide Bound, Ordered, InOrder, PoisonedBelow;
  }

  /** What `Close` leaves on the stack. */
  lemma ClosedFrame(c: Config)
    requires Inv(c) && c.temps == 1
    ensures FrameAfterClose(c) == KeptVals(c) + [Top(c)]
  {
    EndedFrame(c);
    FrameSize(c);
    hide Bound, KeptCount, Pops, InitialisedCount, Ordered, InOrder, PoisonedBelow, KeptVals;
    assert c.frame == c.frame[..|c.frame| - 1] + [c.frame[|c.frame| - 1]];
  }

  lemma ClosedNothing(c: Config)
    requires Inv(c) && c.temps == 0 && Pops(c.scope) == 0
    ensures FrameAfterClose(c) == KeptVals(c)
  {
    EndedFrame(c);
    FrameSize(c);
    hide Bound, KeptCount, Pops, InitialisedCount, Ordered, InOrder, PoisonedBelow, KeptVals;
    assert c.frame[..|c.frame|] == c.frame;
  }

  lemma CollectedFrame(c: Config)
    requires Inv(c) && c.temps == 0
    ensures FrameAfterCollect(c) == KeptVals(c)
  {
    EndedFrame(c);
    FrameSize(c);
    hide Bound, KeptCount, Pops, InitialisedCount, Ordered, InOrder, PoisonedBelow, KeptVals;
    assert c.frame[..|c.frame|] == c.frame;
  }

  lemma KeepsEnded(c: Config, extra: seq<Val>)
    requires Inv(c) && c.scope.depth > 0 && KeptCount(c.scope.locals, c.scope.depth) > 0
    ensures Inv(EndedConfig(c, KeptVals(c) + extra, |extra|))
  {
    KeptCountIs(c.scope.locals, c.scope.depth);
    EndedBound(c, extra);
    hide Bound, KeptVals;
  }

  lemma EndedBound(c: Config, extra: seq<Val>)
    requires Inv(c) && c.scope.depth > 0
    ensures var c' := EndedConfig(c, KeptVals(c) + extra, |extra|);
      |c'.vals| == |c'.scope.locals| && Stacked(c'.frame, Bound(c'.scope.locals, c'.vals), |extra|)
  {
    hide Bound, KeptCount, Ordered, InOrder, PoisonedBelow;
  }

  lemma KeepsRebound(c: Config, v: Val)
    requires Inv(c) && c.temps == 0 && c.vals != [] && c.scope.locals[|c.vals| - 1].initialised
    ensures Inv(Rebound(c, v)) && c.frame != []
  {
    var (locals, n) := (c.scope.locals, |c.vals| - 1);
    assert locals == locals[..n] + [locals[n]] && c.vals == c.vals[..n] + [c.vals[n]];
    assert c.vals[n := v] == c.vals[..n] + [v];
    BoundSnoc(locals[..n], c.vals[..n], locals[n], c.vals[n]);
    BoundSnoc(locals[..n], c.vals[..n], locals[n], v);
    hide Bound, Ordered, InOrder, PoisonedBelow;
    assert c.frame[..|c.frame|] == c.frame;
  }

  /** What is left when a list has been collected into its slot. */
  lemma KeepsCollectInto(c: Config, v: Val)
    requires Inv(c) && Allowed(c, CollectInto(v))
    ensures Inv(Step(c, CollectInto(v)))
  {
    CollectedFrame(c);
    KeepsEnded(c, []);
    hide Inv, FrameAfterCollect, KeptVals;
    assert KeptVals(c) + [] == KeptVals(c);
    KeepsRebound(EndedConfig(c, KeptVals(c), 0), v);
  }

  lemma Keeps(c: Config, e: Event)
    requires Inv(c) && Allowed(c, e)
    ensures Inv(Step(c, e))
  {
    hide Bound, Resolved, KeptCount, Pops, StackIndex, InitialisedCount, FrameAfterClose, FrameAfterCollect, KeptVals;
    match e
    case Declare(name, span) => KeepsDeclare(c, Ident(name), span, false, 0, c.temps);
    case DeclarePhantom(span, initialised) =>
      KeepsDeclare(c, Phantom, span, initialised, if initialised then c.frame[|c.frame| - 1] else 0, if initialised then 0 else c.temps);
    case MarkInitialised(idx) => KeepsMark(c, idx);
    case Resolve(name) => KeepsResolve(c, name);
    case Close =>
      if c.temps == 1 {
        ClosedFrame(c);
        KeepsEnded(c, [Top(c)]);
      } else {
        ClosedNothing(c);
        assert KeptVals(c) + [] == KeptVals(c);
        KeepsEnded(c, []);
      }
    case Collect(v) =>
      CollectedFrame(c);
      KeepsEnded(c, [v]);
    case CollectInto(v) => KeepsCollectInto(c, v);
    case GetLocal(idx) => InitialisedSlot(c, idx);
    case _ =>
  }

  // Whole runs.

  ghost predicate Disciplined(c: Config, es: seq<Event>)
    requires Inv(c)
    decreases |es|
  {
    es != [] ==>
      && Allowed(c, es[0])
      && (Keeps(c, es[0]); Disciplined(Step(c, es[0]), es[1..]))
  }

  ghost function Run(c: Config, es: seq<Event>): (c': Config)
    requires Inv(c) && Disciplined(c, es)
    ensures Inv(c')
    decreases |es|
  {
    if es == [] then c
    else
      Keeps(c, es[0]);
      Run(Step(c, es[0]), es[1..])
  }

  lemma {:induction false} PendingSame(a: seq<Local>, b: seq<Local>, d: nat)
    requires |a| == |b|
    requires forall i :: 0 <= i < |a| ==> a[i].depth == b[i].depth && (a[i].initialised == b[i].initialised || a[i].depth >= d)
    ensures Pending(a, d) == Pending(b, d)
  {
    if a != [] {
      PendingSame(a[..|a| - 1], b[..|b| - 1], d);
    }
  }

  /** Equal up to `used`, which only serves warnings. */
  ghost predicate SameLocal(a: Local, b: Local) {
    a.(used := true) == b.(used := true)
  }

  /** What an event may do to local `i`: nothing but mark it, bind it, or drop it. */
  ghost predicate LocalStep(c: Config, e: Event, c': Config, i: nat)
    requires |c.vals| == |c.scope.locals| && |c'.vals| == |c'.scope.locals|
    requires i < |c.scope.locals| && i < |c'.scope.locals|
  {
    var (l, l') := (c.scope.locals[i], c'.scope.locals[i]);
    || (SameLocal(l', l) && c'.vals[i] == c.vals[i])
    || (e == MarkInitialised(i) && l' == l.(initialised := true) && !l.initialised && (l.depth == c.scope.depth || i == |c.scope.locals| - 1))
    || (e.CollectInto? && l' == l && i == |c'.scope.locals| - 1 && l.name.Phantom? && l.initialised)
  }

  lemma StepLocals(c: Config, e: Event)
    requires Inv(c) && Allowed(c, e) && Inv(Step(c, e))
    ensures var c' := Step(c, e);
      && (forall i :: 0 <= i < |c.scope.locals| && i < |c'.scope.locals| ==> LocalStep(c, e, c', i))
      && (forall i :: |c.scope.locals| <= i < |c'.scope.locals| ==> c'.scope.locals[i].depth == c.scope.depth)
      && (forall i :: |c'.scope.locals| <= i < |c.scope.locals| ==>
            c.scope.locals[i].depth == c.scope.depth && c'.scope.depth == c.scope.depth - 1)
  {
    hide Bound, Resolved, Pops, InitialisedCount, Ordered, InOrder, KeptCount, StackIndex;
    KeptCountIs(c.scope.locals, c.scope.depth);
  }

  /** What a local keeps: its name, its depth, and once it is initialised, its value. */
  ghost predicate Persists(c: Config, c': Config, idx: nat)
    requires Inv(c) && Inv(c')
  {
    && idx < |c.scope.locals| && idx < |c'.scope.locals|
    && c'.scope.locals[idx].name == c.scope.locals[idx].name
    && c'.scope.locals[idx].depth == c.scope.locals[idx].depth
    && (c.scope.locals[idx].initialised ==> c'.scope.locals[idx].initialised && c'.vals[idx] == c.vals[idx])
  }

  /** The event puts a list into the slot of the local, which nobody can read. */
  ghost predicate Reuses(c: Config, e: Event, idx: nat) {
    e.CollectInto? && idx + 1 == KeptCount(c.scope.locals, c.scope.depth)
  }

  lemma StepPersists(c: Config, e: Event, idx: nat)
    requires Inv(c) && Allowed(c, e) && Inv(Step(c, e)) && !Reuses(c, e, idx)
    requires idx < |c.scope.locals| && idx < |Step(c, e).scope.locals|
    ensures Persists(c, Step(c, e), idx)
    ensures StackIndex(Step(c, e).scope, idx) == StackIndex(c.scope, idx)
  {
    StepLocals(c, e);
    StepCount(c, e);
    var c' := Step(c, e);
    hide Step, Bound, InOrder, Pending, Allowed, KeptCount;
    LocalFacts(c, e, c', idx);
    var (a, b) := (c.scope.locals[..idx], c'.scope.locals[..idx]);
    assert c.scope.locals[idx].depth <= c.scope.depth;
    hide Ordered, PoisonedBelow, LocalStep;
    forall i | 0 <= i < idx
      ensures a[i].depth == b[i].depth && (a[i].initialised == b[i].initialised || a[i].depth >= c.scope.depth)
    {
      LocalFacts(c, e, c', i);
    }
    PendingSame(a, b, c.scope.locals[idx].depth);
  }

  lemma StepCount(c: Config, e: Event)
    requires Inv(c) && Allowed(c, e)
    ensures e.CollectInto? ==> |Step(c, e).scope.locals| == KeptCount(c.scope.locals, c.scope.depth)
  {
    hide Bound, Pops, InitialisedCount, Ordered, InOrder, KeptCount, StackIndex;
  }

  lemma LocalFacts(c: Config, e: Event, c': Config, i: nat)
    requires |c.vals| == |c.scope.locals| && |c'.vals| == |c'.scope.locals|
    requires i < |c.scope.locals| && i < |c'.scope.locals| && LocalStep(c, e, c', i)
    ensures var (l, l') := (c.scope.locals[i], c'.scope.locals[i]);
      && l'.name == l.name && l'.depth == l.depth
      && ((e.CollectInto? && i == |c'.scope.locals| - 1) || l'.initialised != l.initialised || c'.vals[i] == c.vals[i])
      && (l'.initialised == l.initialised || (!l.initialised && (l.depth == c.scope.depth || i == |c.scope.locals| - 1)))
  {}

  /** During the run, the local `idx` is never dropped, and its slot is not used again. */
  ghost predicate Live(c: Config, es: seq<Event>, idx: nat)
    requires Inv(c) && Disciplined(c, es)
    decreases |es|
  {
    && idx < |c.scope.locals|
    && (es != [] ==> !Reuses(c, es[0], idx) && (Keeps(c, es[0]); Live(Step(c, es[0]), es[1..], idx)))
  }

  /** A stack index computed once stays right for as long as the local exists, whether or
      not its value is on the stack yet. */
  lemma {:induction false} SlotFixed(c: Config, es: seq<Event>, idx: nat)
    requires Inv(c) && Disciplined(c, es) && Live(c, es, idx)
    ensures Persists(c, Run(c, es), idx)
    ensures StackIndex(Run(c, es).scope, idx) == StackIndex(c.scope, idx)
    decreases |es|
  {
    if es != [] {
      hide Step, Inv, Allowed, StackIndex, Reuses;
      Keeps(c, es[0]);
      SlotFixed(Step(c, es[0]), es[1..], idx);
      StepPersists(c, es[0], idx);
    }
  }

  /** Main result: the slot that is computed for a local, at any time after its declaration,
      is the one that holds its value at any later time at which it is initialised. */
  lemma PredictedSlot(c: Config, es: seq<Event>, idx: nat)
    requires Inv(c) && Disciplined(c, es) && Live(c, es, idx)
    ensures var (slot, end) := (StackIndex(c.scope, idx), Run(c, es));
      && idx < |end.scope.locals|
      && (end.scope.locals[idx].initialised ==> slot < |end.frame| && end.frame[slot] == end.vals[idx])
  {
    hide Run, StackIndex, Disciplined, Live;
    SlotFixed(c, es, idx);
    if Run(c, es).scope.locals[idx].initialised {
      InitialisedSlot(Run(c, es), idx);
    }
  }

  // Nesting.

  /** `c` is inside a scope that was opened on top of `outer`: nothing of `outer` has changed
      but the marks on locals, and everything that came on top belongs to the inner scopes. */
  ghost predicate Inside(outer: Config, c: Config)
    requires Inv(outer) && Inv(c)
  {
    var n := |outer.scope.locals|;
    && outer.temps == 0
    && c.scope.depth > outer.scope.depth
    && n <= |c.scope.locals|
    && (forall i :: 0 <= i < n ==> SameLocal(c.scope.locals[i], outer.scope.locals[i]))
    && (forall i :: n <= i < |c.scope.locals| ==> c.scope.locals[i].depth > outer.scope.depth)
    && c.vals[..n] == outer.vals
    && SamePoison(outer.scope, c.scope)
  }

  ghost predicate SamePoison(outer: ScopeState, s: ScopeState) {
    && (forall t :: t in outer.poisoned ==> t in s.poisoned && s.poisoned[t] == outer.poisoned[t])
    && (forall t :: t in s.poisoned && s.poisoned[t] <= outer.depth ==> t in outer.poisoned)
  }

  lemma StepPoison(outer: ScopeState, c: Config, e: Event)
    requires Inv(c) && Allowed(c, e) && SamePoison(outer, c.scope) && c.scope.depth > outer.depth && PoisonedBelow(outer)
    ensures SamePoison(outer, Step(c, e).scope)
  {
    hide Bound, Resolved, Pops, InitialisedCount, Ordered, InOrder, KeptCount, StackIndex;
  }

  /** The event gives a value to one of the first `n` locals, as only the items of a list do from
      within their scope. */
  ghost predicate Touches(c: Config, e: Event, n: nat) {
    || (e.MarkInitialised? && e.idx < n && e.idx < |c.scope.locals| && !c.scope.locals[e.idx].initialised)
    || (e.CollectInto? && KeptCount(c.scope.locals, c.scope.depth) <= n)
  }

  lemma StepInside(outer: Config, c: Config, e: Event)
    requires Inv(outer) && Inv(c) && Inside(outer, c) && !Touches(c, e, |outer.scope.locals|)
    requires Allowed(c, e) && Inv(Step(c, e)) && Step(c, e).scope.depth > outer.scope.depth
    ensures Inside(outer, Step(c, e))
  {
    hide Step, Bound, Allowed, InOrder, SamePoison;
    StepLocals(c, e);
    StepCount(c, e);
    StepPoison(outer.scope, c, e);
    var (c', n) := (Step(c, e), |outer.scope.locals|);
    assert n > 0 ==> SameLocal(c.scope.locals[n - 1], outer.scope.locals[n - 1]);
    assert n <= |c'.scope.locals|;
    hide Ordered, PoisonedBelow;
    hide LocalStep, SameLocal;
    forall i | 0 <= i < n
      ensures SameLocal(c'.scope.locals[i], outer.scope.locals[i]) && c'.vals[i] == outer.vals[i]
    {
      LocalUntouched(outer, c, e, c', i);
    }
    forall i | n <= i < |c'.scope.locals| ensures c'.scope.locals[i].depth > outer.scope.depth {
      if i < |c.scope.locals| {
        LocalFacts(c, e, c', i);
      }
    }
  }

  lemma LocalUntouched(outer: Config, c: Config, e: Event, c': Config, i: nat)
    requires Inv(outer) && Inv(c) && Inv(c') && Inside(outer, c) && !Touches(c, e, |outer.scope.locals|)
    requires e.CollectInto? ==> |c'.scope.locals| == KeptCount(c.scope.locals, c.scope.depth)
    requires i < |outer.scope.locals| && i < |c'.scope.locals| && LocalStep(c, e, c', i)
    ensures SameLocal(c'.scope.locals[i], outer.scope.locals[i]) && c'.vals[i] == outer.vals[i]
  {
    assert SameLocal(c.scope.locals[i], outer.scope.locals[i]);
    assert c.vals[..|outer.scope.locals|][i] == outer.vals[i];
  }

  /** Every configuration of the run is inside a scope opened on top of `outer`, and no event
      touches the locals outside. */
  ghost predicate StaysInside(outer: Config, c: Config, es: seq<Event>)
    requires Inv(c) && Disciplined(c, es)
    decreases |es|
  {
    && c.scope.depth > outer.scope.depth
    && (es != [] ==>
          !Touches(c, es[0], |outer.scope.locals|) && (Keeps(c, es[0]); StaysInside(outer, Step(c, es[0]), es[1..])))
  }

  lemma {:induction false} RunInside(outer: Config, c: Config, es: seq<Event>)
    requires Inv(outer) && Inv(c) && Inside(outer, c) && Disciplined(c, es) && StaysInside(outer, c, es)
    ensures Inside(outer, Run(c, es))
    decreases |es|
  {
    if es != [] {
      hide Step, Inv, Allowed, Inside, Touches;
      Keeps(c, es[0]);
      StepInside(outer, c, es[0]);
      RunInside(outer, Step(c, es[0]), es[1..]);
    }
  }

  lemma {:induction false} BoundSame(a: seq<Local>, b: seq<Local>, vals: seq<Val>)
    requires |a| == |b| == |vals| && forall i :: 0 <= i < |a| ==> SameLocal(a[i], b[i])
    ensures Bound(a, vals) == Bound(b, vals)
  {
    if a != [] {
      BoundSame(a[..|a| - 1], b[..|b| - 1], vals[..|vals| - 1]);
    }
  }

  /** Main result: opening a scope, any disciplined run inside it and closing it again give
      back the locals, the poisoned tokens and the stack, with the result on top. */
  lemma Balanced(outer: Config, es: seq<Event>)
    requires Inv(outer) && outer.temps == 0
    requires Inv(Step(outer, Begin)) && Disciplined(Step(outer, Begin), es) && StaysInside(outer, Step(outer, Begin), es)
    requires var c := Run(Step(outer, Begin), es); c.scope.depth == outer.scope.depth + 1 && c.temps == 1 && Allowed(c, Close)
    ensures var c := Run(Step(outer, Begin), es);
      Restored(outer, Step(c, Close), Top(c))
  {
    var c := Run(Step(outer, Begin), es);
    RunInside(outer, Step(outer, Begin), es);
    hide Run, Disciplined, StaysInside;
    CloseInside(outer, c);
  }

  /** `outer` is back, with `result` on the stack. */
  ghost predicate Restored(outer: Config, c: Config, result: Val) {
    && c.frame == outer.frame + [result]
    && c.vals == outer.vals
    && c.scope.depth == outer.scope.depth
    && c.scope.poisoned == outer.scope.poisoned
    && |c.scope.locals| == |outer.scope.locals|
    && (forall i :: 0 <= i < |outer.scope.locals| ==> SameLocal(c.scope.locals[i], outer.scope.locals[i]))
  }

  lemma KeptIsOuter(outer: Config, c: Config)
    requires Inv(outer) && Inv(c) && Inside(outer, c) && c.scope.depth == outer.scope.depth + 1
    ensures KeptVals(c) == outer.frame
  {
    var n := |outer.scope.locals|;
    LocalsLeft(outer, c);
    BoundSame(c.scope.locals[..n], outer.scope.locals, outer.vals);
    hide Bound, KeptCount, InOrder, Ordered, SameLocal, SamePoison, PoisonedBelow;
    assert outer.frame[..|outer.frame|] == outer.frame;
  }

  lemma CloseInside(outer: Config, c: Config)
    requires Inv(outer) && Inv(c) && Inside(outer, c)
    requires c.scope.depth == outer.scope.depth + 1 && c.temps == 1 && Allowed(c, Close)
    ensures Restored(outer, Step(c, Close), Top(c))
  {
    LocalsLeft(outer, c);
    KeptIsOuter(outer, c);
    ClosedFrame(c);
    PoisonRestored(outer.scope, c.scope);
    hide Bound, KeptCount, KeptVals, Pops, InitialisedCount, InOrder, Ordered, SameLocal, SamePoison, PoisonedBelow, FrameAfterClose, Stacked;
  }

  lemma LocalsLeft(outer: Config, c: Config)
    requires Inv(outer) && Inv(c) && Inside(outer, c) && c.scope.depth == outer.scope.depth + 1
    ensures KeptCount(c.scope.locals, c.scope.depth) == |outer.scope.locals|
  {
    KeptCountIs(c.scope.locals, c.scope.depth);
    var n := |outer.scope.locals|;
    assert n > 0 ==> SameLocal(c.scope.locals[n - 1], outer.scope.locals[n - 1]);
  }

  lemma PoisonRestored(outer: ScopeState, s: ScopeState)
    requires SamePoison(outer, s) && PoisonedBelow(s) && PoisonedBelow(outer) && s.depth == outer.depth + 1
    ensures Unpoisoned(s).poisoned == outer.poisoned
  {}
}
