// Chunks of bytecode: the source span of every instruction, run-length encoded.
module Chunk {

  type Op = nat
  type Span = nat

  datatype SourceSpan = SourceSpan(span: Span, count: nat)

  function Repeat(s: Span, n: nat): (r: seq<Span>)
    ensures |r| == n && forall i :: 0 <= i < n ==> r[i] == s
  {
    seq(n, _ => s)
  }

  /** The span of each instruction. */
  function Expanded(runs: seq<SourceSpan>): seq<Span> {
    if runs == [] then [] else
      Expanded(runs[..|runs| - 1]) + Repeat(runs[|runs| - 1].span, runs[|runs| - 1].count)
  }

  /** No empty runs, and no two neighbours with the same span. */
  ghost predicate Canonical(runs: seq<SourceSpan>) {
    && (forall i :: 0 <= i < |runs| ==> runs[i].count > 0)
    && (forall i :: 0 < i < |runs| ==> runs[i - 1].span != runs[i].span)
  }

  /** A list of spans has only one canonical run-length encoding. */
  lemma {:induction false} CanonicalIsUnique(a: seq<SourceSpan>, b: seq<SourceSpan>)
    requires Canonical(a) && Canonical(b) && Expanded(a) == Expanded(b)
    ensures a == b
  {
    if a != [] {
      LastRun(a);
    }
    if b != [] {
      LastRun(b);
    }
    if a != [] && b != [] {
      var (x, y) := (a[|a| - 1], b[|b| - 1]);
      var (e, m) := (Expanded(a), |Expanded(a)|);
      assert e[m - 1] == x.span == y.span;
      assert x.count < m ==> e[m - x.count - 1] != x.span;
      assert y.count < m ==> e[m - y.count - 1] != y.span;
      assert x.count == y.count;
      assert Expanded(a[..|a| - 1]) == e[..m - x.count] == Expanded(b[..|b| - 1]);
      CanonicalIsUnique(a[..|a| - 1], b[..|b| - 1]);
      assert a == a[..|a| - 1] + [x] && b == b[..|b| - 1] + [y];
    }
  }

  /** The last run is exactly the longest stretch of its span at the end. */
  lemma LastRun(runs: seq<SourceSpan>)
    requires Canonical(runs) && runs != []
    ensures var (e, last) := (Expanded(runs), runs[|runs| - 1]);
      && last.count <= |e|
      && (forall i :: |e| - last.count <= i < |e| ==> e[i] == last.span)
      && (last.count < |e| ==> e[|e| - last.count - 1] != last.span)
  {
    if |runs| > 1 {
      var front := runs[..|runs| - 1];
      var before := front[|front| - 1];
      assert Expanded(front)[|Expanded(front)| - 1] == before.span;
    }
  }

  datatype SpanResult = Found(span: Span) | Missing

  lemma {:induction false} ExpandedAppend(a: seq<SourceSpan>, b: seq<SourceSpan>)
    ensures Expanded(a + b) == Expanded(a) + Expanded(b)
  {
    if b == [] {
      assert a + b == a;
    } else {
      assert (a + b)[..|a + b| - 1] == a + b[..|b| - 1];
      ExpandedAppend(a, b[..|b| - 1]);
    }
  }

  class Chunk {
    var code: seq<Op>
    var spans: seq<SourceSpan>

    /** One span for each instruction, canonically encoded. */
    ghost predicate Valid()
      reads this
    {
      Canonical(spans) && |Expanded(spans)| == |code|
    }

    constructor ()
      ensures Valid() && code == [] && Expanded(spans) == []
    {
      code, spans := [], [];
    }

    /** `push_op` */
    method PushOp(data: Op, span: Span) returns (idx: nat)
      requires Valid()
      modifies this
      ensures Valid()
      ensures idx == old(|code|) && code == old(code) + [data]
      ensures Expanded(spans) == old(Expanded(spans)) + [span]
    {
      idx := |code|;
      code := code + [data];
      PushSpan(span);
    }

    /** `push_span` */
    method PushSpan(span: Span)
      requires Canonical(spans)
      modifies this`spans
      ensures Canonical(spans) && Expanded(spans) == old(Expanded(spans)) + [span]
    {
      var n := |spans|;
      if n > 0 && spans[n - 1].span == span {
        assert Repeat(span, spans[n - 1].count + 1) == Repeat(span, spans[n - 1].count) + [span];
        spans := spans[n - 1 := spans[n - 1].(count := spans[n - 1].count + 1)];
        assert spans[..n - 1] == old(spans)[..n - 1];
      } else {
        spans := spans + [SourceSpan(span, 1)];
        assert spans[..n] == old(spans);
        assert Repeat(span, 1) == [span];
      }
    }

    /** `pop_op`: undoes the last `push_op`. On an empty chunk the source panics. */
    method PopOp()
      requires Valid() && code != []
      modifies this
      ensures Valid()
      ensures code == old(code)[..|old(code)| - 1]
      ensures Expanded(spans) == old(Expanded(spans))[..|old(code)| - 1]
    {
      code := code[..|code| - 1];
      var n := |spans|;
      var last := spans[n - 1];
      if last.count > 1 {
        spans := spans[n - 1 := last.(count := last.count - 1)];
        assert spans[..n - 1] == old(spans)[..n - 1];
        assert Repeat(last.span, last.count) == Repeat(last.span, last.count - 1) + [last.span];
      } else {
        spans := spans[..n - 1];
      }
    }

    /** `get_span`: the panic behind the loop is not reached for an instruction of the chunk. */
    method GetSpan(offset: nat) returns (r: SpanResult)
      requires Valid()
      ensures r == if offset < |code| then Found(Expanded(spans)[offset]) else Missing
    {
      var pos := 0;
      assert spans[..0] == [];
      for k := 0 to |spans|
        invariant pos == |Expanded(spans[..k])| && pos <= offset
      {
        var span := spans[k];
        assert spans[..k + 1] == spans[..k] + [span];
        ExpandedAppend(spans[..k], [span]);
        ExpandedAppend(spans[..k + 1], spans[k + 1..]);
        assert spans == spans[..k + 1] + spans[k + 1..];
        assert [span][..0] == [];
        pos := pos + span.count;
        if pos > offset {
          return Found(span.span);
        }
      }
      assert spans[..|spans|] == spans;
      return Missing;
    }
  }
}
