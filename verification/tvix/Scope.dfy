// The compiler's simulation of the runtime stack: `Scope` and the values it goes through.
module Scope {
  import opened Common

  datatype LocalName = Ident(name: string) | Phantom

  type Span = nat

  datatype Local = Local(
    name: LocalName,
    span: Span,
    depth: nat,
    initialised: bool,
    used: bool,
    needsFinaliser: bool,
    mustThunk: bool
  ) {
    predicate HasName(other: string) {
      name == Ident(other)
    }

    /** The name starts with `_`. */
    predicate IsIgnored() {
      name.Ident? && name.name != "" && name.name[0] == '_'
    }
  }

  datatype LocalPosition = Unknown | Known(idx: nat) | Recursive(idx: nat)

  /** The fields of a scope. */
  datatype ScopeState = ScopeState(
    locals: seq<Local>,
    depth: nat,
    withSize: nat,
    poisoned: map<string, nat>
  )

  const EMPTY: ScopeState := ScopeState([], 0, 0, map[])

  // What the operations do to the fields.

  function Poisoned(s: ScopeState, token: string, depth: nat): ScopeState {
    if token in s.poisoned then s else s.(poisoned := s.poisoned[token := depth])
  }

  function Inherited(s: ScopeState): ScopeState {
    ScopeState([], s.depth + 1, s.withSize + 1, s.poisoned)
  }

  function Unpoisoned(s: ScopeState): ScopeState {
    s.(poisoned := map t | t in s.poisoned && s.poisoned[t] != s.depth :: s.poisoned[t])
  }

  function Declared(s: ScopeState, name: LocalName, span: Span, initialised: bool): ScopeState {
    s.(locals := s.locals + [Local(name, span, s.depth, initialised, name.Phantom?, false, false)])
  }

  function Initialised(s: ScopeState, idx: nat): ScopeState
    requires idx < |s.locals|
  {
    s.(locals := s.locals[idx := s.locals[idx].(initialised := true)])
  }

  /** The number of uninitialised locals below depth `d`. */
  function Pending(locals: seq<Local>, d: nat): (n: nat)
    ensures n <= |locals|
  {
    if locals == [] then 0
    else
      var last := locals[|locals| - 1];
      Pending(locals[..|locals| - 1], d) + if !last.initialised && last.depth < d then 1 else 0
  }

  /** `stack_index` */
  function StackIndex(s: ScopeState, idx: nat): nat
    requires idx < |s.locals|
  {
    idx - Pending(s.locals[..idx], s.locals[idx].depth)
  }

  /** The last local with the given name. */
  function Resolved(locals: seq<Local>, name: string): (r: Option<nat>)
    ensures r.Some? ==> r.value < |locals| && locals[r.value].HasName(name)
  {
    var n := |locals|;
    if n == 0 then None
    else if locals[n - 1].HasName(name) then Some(n - 1)
    else Resolved(locals[..n - 1], name)
  }

  /** How many locals are left when those of depth `d` are dropped from the end. */
  function KeptCount(locals: seq<Local>, d: nat): (n: nat)
    ensures n <= |locals|
  {
    var n := |locals|;
    if n > 0 && locals[n - 1].depth == d then KeptCount(locals[..n - 1], d) else n
  }

  lemma {:induction false} KeptCountIs(locals: seq<Local>, d: nat)
    ensures var n := KeptCount(locals, d);
      && (forall k :: n <= k < |locals| ==> locals[k].depth == d)
      && (n > 0 ==> locals[n - 1].depth != d)
  {
    var n := |locals|;
    if n > 0 && locals[n - 1].depth == d {
      KeptCountIs(locals[..n - 1], d);
    }
  }

  function InitialisedCount(locals: seq<Local>): (n: nat)
    ensures n <= |locals|
  {
    if locals == [] then 0
    else
      InitialisedCount(locals[..|locals| - 1]) + if locals[|locals| - 1].initialised then 1 else 0
  }

  /** The spans of unused locals, last one first. */
  function UnusedSpans(locals: seq<Local>): seq<Span> {
    if locals == [] then []
    else
      var last := locals[|locals| - 1];
      (if !last.used && !last.IsIgnored() then [last.span] else []) + UnusedSpans(locals[..|locals| - 1])
  }

  /** `end_scope` on the fields. */
  function Ended(s: ScopeState): ScopeState
    requires s.depth > 0
  {
    Unpoisoned(s).(locals := s.locals[..KeptCount(s.locals, s.depth)], depth := s.depth - 1)
  }

  function Pops(s: ScopeState): nat {
    InitialisedCount(s.locals[KeptCount(s.locals, s.depth)..])
  }

  lemma {:induction false} CountsAppend(a: seq<Local>, b: seq<Local>)
    ensures InitialisedCount(a + b) == InitialisedCount(a) + InitialisedCount(b)
    ensures UnusedSpans(a + b) == UnusedSpans(b) + UnusedSpans(a)
  {
    if b == [] {
      assert a + b == a;
    } else {
      assert (a + b)[..|a + b| - 1] == a + b[..|b| - 1];
      CountsAppend(a, b[..|b| - 1]);
    }
  }

  // The three results of dropping locals, when `all[n..]` has been dropped so far.

  ghost function KeptFrom(all: seq<Local>, n: nat, d: nat): (k: nat)
    requires n <= |all|
    ensures k <= n
  {
    KeptCount(all[..n], d)
  }

  ghost function PopsFrom(all: seq<Local>, n: nat): nat
    requires n <= |all|
  {
    InitialisedCount(all[n..])
  }

  ghost function SpansFrom(all: seq<Local>, n: nat): seq<Span>
    requires n <= |all|
  {
    UnusedSpans(all[n..])
  }

  lemma DropNone(all: seq<Local>, d: nat)
    ensures KeptFrom(all, |all|, d) == KeptCount(all, d) && PopsFrom(all, |all|) == 0 && SpansFrom(all, |all|) == []
  {
    assert all[..|all|] == all;
  }

  lemma DropOne(all: seq<Local>, n: nat, d: nat)
    requires 0 < n <= |all|
    ensures var local := all[n - 1];
      && KeptFrom(all, n, d) == (if local.depth == d then KeptFrom(all, n - 1, d) else n)
      && PopsFrom(all, n - 1) == PopsFrom(all, n) + (if local.initialised then 1 else 0)
      && SpansFrom(all, n - 1) == SpansFrom(all, n) + (if !local.used && !local.IsIgnored() then [local.span] else [])
  {
    var local := all[n - 1];
    assert all[..n][..n - 1] == all[..n - 1];
    assert all[n - 1..] == [local] + all[n..];
    CountsAppend([local], all[n..]);
    assert [local][..0] == [];
  }

  lemma EndedAt(all: seq<Local>, n: nat, d: nat)
    requires n <= |all| && n == KeptCount(all, d)
    ensures PopsFrom(all, n) == InitialisedCount(all[KeptCount(all, d)..])
    ensures SpansFrom(all, n) == UnusedSpans(all[KeptCount(all, d)..])
  {}

  class Scope {
    var locals: seq<Local>
    var scopeDepth: nat
    var withStackSize: nat
    var poisonedTokens: map<string, nat>

    ghost function State(): ScopeState
      reads this
    {
      ScopeState(locals, scopeDepth, withStackSize, poisonedTokens)
    }

    constructor ()
      ensures State() == EMPTY
    {
      locals, scopeDepth, withStackSize, poisonedTokens := [], 0, 0, map[];
    }

    /** `poison` */
    method Poison(name: string, depth: nat)
      modifies this
      ensures State() == Poisoned(old(State()), name, depth)
    {
      if name !in poisonedTokens {
        poisonedTokens := poisonedTokens[name := depth];
      }
    }

    /** `inherit` */
    method Inherit() returns (child: Scope)
      ensures fresh(child) && child.State() == Inherited(State())
    {
      child := new Scope();
      child.poisonedTokens := poisonedTokens;
      child.scopeDepth := scopeDepth + 1;
      child.withStackSize := withStackSize + 1;
    }

    /** `is_poisoned` */
    predicate IsPoisoned(name: string): (r: bool)
      reads this
      ensures r <==> name in State().poisoned
    {
      name in poisonedTokens
    }

    method Unpoison()
      modifies this
      ensures State() == Unpoisoned(old(State()))
    {
      poisonedTokens := map t | t in poisonedTokens && poisonedTokens[t] != scopeDepth :: poisonedTokens[t];
    }

    method PushWith()
      modifies this
      ensures State() == old(State()).(withSize := old(withStackSize) + 1)
    {
      withStackSize := withStackSize + 1;
    }

    method PopWith()
      requires withStackSize > 0
      modifies this
      ensures State() == old(State()).(withSize := old(withStackSize) - 1)
    {
      withStackSize := withStackSize - 1;
    }

    /** `resolve_local`: searches from the back, and marks what it finds as used. */
    method ResolveLocal(name: string) returns (p: LocalPosition)
      modifies this
      ensures match Resolved(old(locals), name)
        case None => p == Unknown && State() == old(State())
        case Some(idx) =>
          && p == (if old(locals)[idx].initialised then Known(idx) else Recursive(idx))
          && State() == old(State()).(locals := old(locals)[idx := old(locals)[idx].(used := true)])
    {
      var i := |locals|;
      assert locals[..i] == locals;
      while i > 0
        invariant i <= |locals| && State() == old(State())
        invariant Resolved(locals, name) == Resolved(locals[..i], name)
      {
        i := i - 1;
        assert locals[..i + 1][..i] == locals[..i];
        if locals[i].HasName(name) {
          locals := locals[i := locals[i].(used := true)];
          if !locals[i].initialised {
            return Recursive(i);
          }
          return Known(i);
        }
      }
      return Unknown;
    }

    method DeclarePhantom(span: Span, initialised: bool) returns (idx: nat)
      modifies this
      ensures idx == old(|locals|) && State() == Declared(old(State()), Phantom, span, initialised)
    {
      idx := |locals|;
      locals := locals + [Local.Local(Phantom, span, scopeDepth, initialised, true, false, false)];
    }

    method DeclareLocal(name: string, span: Span) returns (idx: nat)
      modifies this
      ensures idx == old(|locals|) && State() == Declared(old(State()), Ident(name), span, false)
    {
      idx := |locals|;
      locals := locals + [Local.Local(Ident(name), span, scopeDepth, false, false, false, false)];
    }

    method MarkInitialised(idx: nat)
      requires idx < |locals|
      modifies this
      ensures State() == Initialised(old(State()), idx)
    {
      locals := locals[idx := locals[idx].(initialised := true)];
    }

    method BeginScope()
      modifies this
      ensures State() == old(State()).(depth := old(scopeDepth) + 1)
    {
      scopeDepth := scopeDepth + 1;
    }

    /** `end_scope`. Taking the last of the locals is where it needs one of another depth. */
    method EndScope() returns (pops: nat, unusedSpans: seq<Span>)
      requires scopeDepth > 0
      requires KeptCount(locals, scopeDepth) > 0
      modifies this
      ensures State() == Ended(old(State()))
      ensures pops == Pops(old(State()))
      ensures unusedSpans == UnusedSpans(old(locals)[KeptCount(old(locals), old(scopeDepth))..])
    {
      ghost var all := locals;
      hide KeptFrom, PopsFrom, SpansFrom, KeptCount, InitialisedCount, UnusedSpans, Local.IsIgnored;
      Unpoison();
      ghost var unpoisoned, d := State(), scopeDepth;
      pops, unusedSpans := 0, [];
      DropNone(all, d);
      DropOne(all, |all|, d);
      while locals[|locals| - 1].depth == scopeDepth
        invariant 0 < |locals| <= |all| && locals == all[..|locals|]
        invariant State() == unpoisoned.(locals := locals)
        invariant KeptCount(all, d) == KeptFrom(all, |locals|, d)
        invariant pops == PopsFrom(all, |locals|) && unusedSpans == SpansFrom(all, |locals|)
        decreases |locals|
      {
        ghost var n := |locals|;
        DropOne(all, n, d);
        var local := locals[|locals| - 1];
        assert local == all[n - 1];
        locals := locals[..|locals| - 1];
        assert |locals| == n - 1;
        if local.initialised {
          pops := pops + 1;
        }
        assert pops == PopsFrom(all, n - 1);
        if !local.used && !local.IsIgnored() {
          unusedSpans := unusedSpans + [local.span];
        }
        assert unusedSpans == SpansFrom(all, n - 1);
      }
      DropOne(all, |locals|, d);
      EndedAt(all, |locals|, d);
      scopeDepth := scopeDepth - 1;
    }
  }
}
