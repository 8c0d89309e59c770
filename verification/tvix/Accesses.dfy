// What an access to a name comes to: told by the locals of the contexts and what is on the frame.
module Accesses {
  import opened Common
  import opened Scope
  import opened ScopeRuns
  import opened ScopeContexts

  /** Local `l` is the last of its name in a context. */
  ghost predicate LastOf(locals: seq<Local>, name: string, l: nat) {
    && l < |locals| && locals[l].name == Ident(name)
    && forall k :: l < k < |locals| ==> locals[k].name != Ident(name)
  }

  ghost predicate NoneOf(locals: seq<Local>, name: string) {
    forall k :: 0 <= k < |locals| ==> locals[k].name != Ident(name)
  }

  lemma {:induction false} ResolvedIs(locals: seq<Local>, name: string, l: nat)
    ensures Resolved(locals, name) == Some(l) <==> LastOf(locals, name, l)
    ensures Resolved(locals, name) == None <==> NoneOf(locals, name)
  {
    if locals != [] && locals[|locals| - 1].name != Ident(name) {
      ResolvedIs(locals[..|locals| - 1], name, l);
    }
  }

  /** Local `p.1` of context `p.0` is the innermost of its name in the first `n` contexts. */
  ghost predicate InnermostOf(ctxs: Contexts, n: nat, name: string, p: (nat, nat)) {
    && p.0 < n <= |ctxs| && LastOf(ctxs[p.0].Locals(), name, p.1)
    && forall i :: p.0 < i < n ==> NoneOf(ctxs[i].Locals(), name)
  }

  ghost predicate NowhereIn(ctxs: Contexts, n: nat, name: string) {
    n <= |ctxs| && forall i :: 0 <= i < n ==> NoneOf(ctxs[i].Locals(), name)
  }

  lemma {:induction false} FindIs(ctxs: Contexts, n: nat, name: string)
    requires n <= |ctxs|
    ensures Find(ctxs, n, name).Some? ==> InnermostOf(ctxs, n, name, Find(ctxs, n, name).value)
    ensures Find(ctxs, n, name) == None <==> NowhereIn(ctxs, n, name)
    decreases n
  {
    hide NoneOf, LastOf, Resolved;
    if n > 0 {
      var r := Resolved(ctxs[n - 1].Locals(), name);
      ResolvedIs(ctxs[n - 1].Locals(), name, if r.Some? then r.value else 0);
      if r.None? {
        FindIs(ctxs, n - 1, name);
      }
    }
  }

  /** Main result: an access is to the frame exactly if the last local of the name in the innermost
      context has its value, and reads that value there; it waits exactly if that local has none;
      otherwise it is an upvalue whose chain ends at the innermost local of the name further out, and
      it is nowhere exactly if there is none. */
  lemma AccessIs(ctxs: Contexts, name: string, l: nat)
    requires AllInv(ctxs)
    ensures var (c, r) := (ctxs[|ctxs| - 1].config, AccessOf(ctxs, name));
      && (LastOf(c.scope.locals, name, l) && c.scope.locals[l].initialised ==>
            r == OnFrame(l) && StackIndex(c.scope, l) < |c.frame| && l < |c.vals| && c.frame[StackIndex(c.scope, l)] == c.vals[l])
      && (LastOf(c.scope.locals, name, l) && !c.scope.locals[l].initialised ==> r == Awaited(l))
      && (NoneOf(c.scope.locals, name) && NowhereIn(ctxs, |ctxs| - 1, name) ==> r == Nowhere)
      && (NoneOf(c.scope.locals, name) && !NowhereIn(ctxs, |ctxs| - 1, name) ==> IsUpward(ctxs, name, r))
  {
    var n := |ctxs| - 1;
    InvAt(ctxs, n);
    var c := ctxs[n].config;
    ResolvedIs(c.scope.locals, name, l);
    if LastOf(c.scope.locals, name, l) && c.scope.locals[l].initialised {
      InitialisedSlot(c, l);
      ValueEach(c);
    }
    hide Inv, Resolved, ResolvedUpvalue, LastOf, StackIndex, Denotes, AllGrown;
    if NoneOf(c.scope.locals, name) {
      UpvalueMeans(ctxs, n, name);
      FindIs(ctxs, n, name);
      assert Accessed(ctxs, name) == ResolvedUpvalue(ctxs, n, name).0;
    }
    hide NoneOf, InnermostOf, NowhereIn;
  }

  lemma ValueEach(c: Config)
    requires Inv(c)
    ensures |c.vals| == |c.scope.locals|
  {}

  ghost predicate IsUpward(ctxs: Contexts, name: string, r: Access)
    requires ctxs != []
  {
    && r.Upward?
    && var p := Denotes(Accessed(ctxs, name), |ctxs| - 1, r.u);
       p.Some? && InnermostOf(ctxs, |ctxs| - 1, name, p.value)
  }

  // ---- Warnings at the end of a scope

  /** A local that nobody has used is reported, unless its name begins with an underscore. */
  ghost predicate Reported(l: Local) {
    !l.used && !(exists rest: string :: l.name == Ident("_" + rest))
  }

  ghost predicate ReportedAt(locals: seq<Local>, span: Span, k: nat) {
    k < |locals| && Reported(locals[k]) && locals[k].span == span
  }

  lemma {:induction false} UnusedAre(locals: seq<Local>, span: Span)
    ensures span in UnusedSpans(locals) <==> exists k :: ReportedAt(locals, span, k)
    decreases |locals|
  {
    hide Reported;
    if locals != [] {
      var n := |locals| - 1;
      UnusedAre(locals[..n], span);
      ReportedIs(locals[n]);
      forall k: nat | k < n ensures ReportedAt(locals[..n], span, k) <==> ReportedAt(locals, span, k) {}
      assert ReportedAt(locals, span, n) <==> !locals[n].used && !locals[n].IsIgnored() && locals[n].span == span;
      LastSpan(locals, span);
      hide UnusedSpans, ReportedAt;
    }
  }

  lemma LastSpan(locals: seq<Local>, span: Span)
    requires locals != []
    ensures var last := locals[|locals| - 1];
      span in UnusedSpans(locals)
      <==> (!last.used && !last.IsIgnored() && last.span == span) || span in UnusedSpans(locals[..|locals| - 1])
  {}

  lemma ReportedIs(l: Local)
    ensures Reported(l) <==> !l.used && !l.IsIgnored()
  {
    if l.IsIgnored() {
      assert l.name == Ident("_" + l.name.name[1..]);
    }
  }
}
