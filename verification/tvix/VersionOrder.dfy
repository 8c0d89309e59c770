// The ordering of versions behind `builtins.compareVersions`.
module VersionOrder {
  import opened Common
  import opened Versions

  function Value(digits: string): nat {
    if digits == "" then 0
    else
      var c := digits[|digits| - 1];
      10 * Value(digits[..|digits| - 1]) + if IsDigit(c) then (c - '0') as int else 0
  }

  /** `str::cmp`: lexicographic, by bytes, which is by scalar values. */
  function CompareText(a: string, b: string): Ordering {
    if a == "" && b == "" then Equal
    else if a == "" then Less
    else if b == "" then Greater
    else if a[0] < b[0] then Less
    else if a[0] > b[0] then Greater
    else CompareText(a[1..], b[1..])
  }

  function CompareNumbers(m: nat, n: nat): Ordering {
    if m < n then Less else if m > n then Greater else Equal
  }

  const PRE: Part := Word("pre")

  /** `VersionPart::cmp` */
  function ComparePart(a: Part, b: Part): Ordering {
    if a.Number? && b.Number? then CompareNumbers(Value(a.text), Value(b.text))
    else if a == PRE && b == PRE then Equal
    else if a == PRE then Less
    else if b == PRE then Greater
    else if a.Number? then Greater
    else if b.Number? then Less
    else CompareText(a.text, b.text)
  }

  /** The part is no number, or it fits an unsigned 64-bit integer. */
  predicate Fits(p: Part) {
    p.Number? ==> Value(p.text) < 0x1_0000_0000_0000_0000
  }

  /** Parsing one of the two as a number fails, which ends the program. */
  predicate Unreadable(a: Part, b: Part) {
    a.Number? && b.Number? && !(Fits(a) && Fits(b))
  }

  /** What comparing two runs gives; none if it ends the program. */
  function CompareRuns(p: Part, q: Part): Option<Ordering> {
    match (Cut(p), Cut(q))
    case (Some(a), Some(b)) => if Unreadable(a, b) then None else Some(ComparePart(a, b))
    case _ => None
  }

  /** `Iterator::cmp`, which asks both sides for a part even if the first has none. */
  function CompareParts(ps: seq<Part>, qs: seq<Part>): Option<Ordering> {
    if ps == [] && qs == [] then Some(Equal)
    else if ps == [] then if Cut(qs[0]) == None then None else Some(Less)
    else if qs == [] then if Cut(ps[0]) == None then None else Some(Greater)
    else if CompareRuns(ps[0], qs[0]) != Some(Equal) then CompareRuns(ps[0], qs[0])
    else CompareParts(ps[1..], qs[1..])
  }

  function PartsForCmpOf(x: string): seq<Part> {
    Parts(x) + [Word("")]
  }

  /** What `compareVersions` computes: both lists of parts get one more, empty, word. */
  function CompareVersions(x: string, y: string): Option<Ordering> {
    CompareParts(PartsForCmpOf(x), PartsForCmpOf(y))
  }

  /** The first `n` parts are equal in pairs. */
  ghost predicate Undecided(ps: seq<Part>, qs: seq<Part>, n: nat) {
    n <= |ps| && n <= |qs| && forall i :: 0 <= i < n ==> CompareRuns(ps[i], qs[i]) == Some(Equal)
  }

  /** Behind `n` parts that are equal there is one that cannot be cut out or read. */
  ghost predicate StopsAt(ps: seq<Part>, qs: seq<Part>, n: nat) {
    && Undecided(ps, qs, n)
    && if n < |ps| && n < |qs| then CompareRuns(ps[n], qs[n]) == None
       else (n < |ps| && Cut(ps[n]) == None) || (n < |qs| && Cut(qs[n]) == None)
  }

  /** The program ends exactly if all parts before such a place are equal. */
  lemma {:induction false} StopsWhere(ps: seq<Part>, qs: seq<Part>)
    ensures CompareParts(ps, qs) == None <==> exists n: nat :: StopsAt(ps, qs, n)
    decreases |ps|
  {
    hide CompareRuns, Cut;
    if ps == [] || qs == [] || CompareRuns(ps[0], qs[0]) != Some(Equal) {
      assert CompareParts(ps, qs) == None <==> StopsAt(ps, qs, 0);
      assert forall n: nat :: StopsAt(ps, qs, n) ==> n == 0;
    } else {
      StopsWhere(ps[1..], qs[1..]);
      if n: nat :| StopsAt(ps[1..], qs[1..], n) {
        forall i | 0 <= i < n + 1 ensures CompareRuns(ps[i], qs[i]) == Some(Equal) {
          assert i > 0 ==> CompareRuns(ps[1..][i - 1], qs[1..][i - 1]) == Some(Equal);
        }
        assert StopsAt(ps, qs, n + 1);
      }
      if n: nat :| StopsAt(ps, qs, n) {
        assert n > 0;
        forall i | 0 <= i < n - 1 ensures CompareRuns(ps[1..][i], qs[1..][i]) == Some(Equal) {
          assert CompareRuns(ps[i + 1], qs[i + 1]) == Some(Equal);
        }
        assert StopsAt(ps[1..], qs[1..], n - 1);
      }
    }
  }

  /** The iterator of a version followed by the one empty word. */
  class PartsForCmp {
    const parts: VersionPartsIter
    var last: bool

    ghost predicate Valid()
      reads this, parts
    {
      parts.Valid() && (!last ==> parts.Rest() == [])
    }

    ghost function Rest(): seq<Part>
      requires Valid()
      reads this, parts
    {
      if last then parts.Rest() + [Word("")] else []
    }

    constructor (version: string)
      ensures Valid() && fresh(parts) && Rest() == PartsForCmpOf(version)
    {
      parts := new VersionPartsIter(version);
      last := true;
    }

    method Next() returns (r: Yield)
      requires Valid()
      modifies this`last, parts
      ensures Valid()
      ensures r == YieldOf(old(Rest())) && Rest() == Tail(old(Rest()))
    {
      r := parts.Next();
      if r.End? && last {
        last := false;
        r := Got(Word(""));
      }
    }
  }

  /** One round of the comparison, in terms of what both sides yield. */
  lemma CompareStep(ps: seq<Part>, qs: seq<Part>)
    ensures CompareParts(ps, qs) ==
      match (YieldOf(ps), YieldOf(qs))
      case (End, End) => Some(Equal)
      case (End, Got(_)) => Some(Less)
      case (Got(_), End) => Some(Greater)
      case (Got(p), Got(q)) =>
        if Unreadable(p, q) then None
        else if ComparePart(p, q) != Equal then Some(ComparePart(p, q))
        else CompareParts(Tail(ps), Tail(qs))
      case _ => None
    ensures YieldOf(ps).Got? ==> |Tail(ps)| < |ps|
  {
    hide Unreadable, ComparePart, Cut;
  }

  /** `builtin_compare_versions`; there is no answer if the program ends. */
  method BuiltinCompareVersions(x: string, y: string) returns (r: Option<int>)
    ensures r == match CompareVersions(x, y)
                 case None => None
                 case Some(Less) => Some(-1)
                 case Some(Equal) => Some(0)
                 case Some(Greater) => Some(1)
  {
    hide PartsForCmpOf, CompareParts, YieldOf, Tail, ComparePart, Unreadable;
    var s1 := new PartsForCmp(x);
    var s2 := new PartsForCmp(y);
    while true
      invariant s1.Valid() && s2.Valid() && fresh(s1) && fresh(s2) && fresh(s1.parts) && fresh(s2.parts)
      invariant s1 != s2 && s1.parts != s2.parts
      invariant CompareParts(s1.Rest(), s2.Rest()) == CompareVersions(x, y)
      decreases |s1.Rest()|
    {
      CompareStep(s1.Rest(), s2.Rest());
      var p := s1.Next();
      if p.Panic? {
        return None;
      }
      var q := s2.Next();
      if q.Panic? {
        return None;
      }
      if p.End? {
        return Some(if q.End? then 0 else -1);
      }
      if q.End? {
        return Some(1);
      }
      if Unreadable(p.part, q.part) {
        return None;
      }
      match ComparePart(p.part, q.part)
      case Less => return Some(-1);
      case Greater => return Some(1);
      case Equal =>
    }
  }

  /** What a comparison must satisfy on three elements to be a total preorder. */
  ghost predicate Consistent(xy: Ordering, yz: Ordering, xz: Ordering) {
    && (xy == Equal ==> xz == yz)
    && (yz == Equal ==> xz == xy)
    && (xy == yz ==> xz == xy)
  }

  lemma {:induction false} TextLaws(a: string, b: string, c: string)
    ensures CompareText(b, a) == CompareText(a, b).Reversed()
    ensures Consistent(CompareText(a, b), CompareText(b, c), CompareText(a, c))
  {
    if a != "" && b != "" {
      TextLaws(a[1..], b[1..], if c != "" then c[1..] else "");
    }
  }

  lemma PartLaws(a: Part, b: Part, c: Part)
    ensures ComparePart(b, a) == ComparePart(a, b).Reversed()
    ensures Consistent(ComparePart(a, b), ComparePart(b, c), ComparePart(a, c))
  {
    TextLaws(a.text, b.text, c.text);
    hide CompareText, Value;
  }

  /** The same for comparisons that may have no answer: two answers that chain give the third. */
  ghost predicate Chains(xy: Option<Ordering>, yz: Option<Ordering>, xz: Option<Ordering>) {
    && (xy == Some(Equal) && yz.Some? ==> xz == yz)
    && (yz == Some(Equal) && xy.Some? ==> xz == xy)
    && (xy == yz && xy.Some? ==> xz == xy)
  }

  function Turned(o: Option<Ordering>): Option<Ordering> {
    match o
    case None => None
    case Some(r) => Some(r.Reversed())
  }

  lemma RunLaws(p: Part, q: Part, r: Part)
    ensures CompareRuns(q, p) == Turned(CompareRuns(p, q))
    ensures Chains(CompareRuns(p, q), CompareRuns(q, r), CompareRuns(p, r))
  {
    hide Cut, CompareText, Value;
    match (Cut(p), Cut(q), Cut(r))
    case (Some(a), Some(b), Some(c)) => PartLaws(a, b, c);
    case (Some(a), Some(b), _) => PartLaws(a, b, PRE);
    case _ =>
  }

  lemma {:induction false} ListLaws(ps: seq<Part>, qs: seq<Part>, rs: seq<Part>)
    ensures CompareParts(qs, ps) == Turned(CompareParts(ps, qs))
    ensures Chains(CompareParts(ps, qs), CompareParts(qs, rs), CompareParts(ps, rs))
  {
    if ps != [] && qs != [] {
      RunLaws(ps[0], qs[0], if rs != [] then rs[0] else PRE);
      hide CompareRuns;
      ListLaws(ps[1..], qs[1..], if rs != [] then rs[1..] else []);
    }
  }

  /** All parts can be cut out and read. */
  predicate Readable(ps: seq<Part>) {
    forall i :: 0 <= i < |ps| ==> Cut(ps[i]).Some? && Fits(ps[i])
  }

  lemma EqualToItself(p: Part)
    ensures CompareRuns(p, p) == if Cut(p).Some? && Fits(p) then Some(Equal) else None
  {
    if Cut(p).Some? {
      PartLaws(Cut(p).value, Cut(p).value, PRE);
    }
    hide ComparePart, Value;
  }

  lemma {:induction false} CommonPrefix(ps: seq<Part>, qs: seq<Part>, rs: seq<Part>)
    ensures CompareParts(ps + qs, ps + rs) == if Readable(ps) then CompareParts(qs, rs) else None
  {
    if ps == [] {
      assert ps + qs == qs && ps + rs == rs;
    } else {
      EqualToItself(ps[0]);
      hide CompareRuns, Cut, Fits;
      assert (ps + qs)[1..] == ps[1..] + qs && (ps + rs)[1..] == ps[1..] + rs;
      CommonPrefix(ps[1..], qs, rs);
      assert Readable(ps) <==> Cut(ps[0]).Some? && Fits(ps[0]) && Readable(ps[1..]) by {
        assert forall i :: 0 <= i < |ps| - 1 ==> ps[1..][i] == ps[i + 1];
        assert forall i :: 0 < i < |ps| ==> ps[i] == ps[1..][i - 1];
      }
    }
  }

  /** Main result: `compareVersions` is a total preorder on the versions that it can read. It is
      antisymmetric in sign, also in when it has no answer, and equal and equally signed
      answers chain; a version is equal to itself exactly if it can be read. */
  lemma TotalPreorder(x: string, y: string, z: string)
    ensures CompareVersions(y, x) == Turned(CompareVersions(x, y))
    ensures CompareVersions(x, x) == if Readable(Parts(x)) then Some(Equal) else None
    ensures Chains(CompareVersions(x, y), CompareVersions(y, z), CompareVersions(x, z))
  {
    ListLaws(PartsForCmpOf(x), PartsForCmpOf(y), PartsForCmpOf(z));
    CommonPrefix(Parts(x), [Word("")], [Word("")]);
  }

  lemma {:induction false} NoEmptyParts(s: string)
    ensures forall i :: 0 <= i < |Parts(s)| ==> Parts(s)[i].text != ""
    decreases |s|
  {
    if s != "" {
      if IsDivider(s[0]) {
        NoEmptyParts(s[1..]);
      } else {
        var n := RunLength(s, IsDigit(s[0]));
        PartsOfRun(s);
        NoEmptyParts(s[n..]);
      }
    }
  }

  /** A part that is cut out is against the empty word what it is as a whole. */
  lemma AgainstEmpty(p: Part)
    requires p.text != ""
    ensures CompareRuns(Word(""), p) == if Cut(p) == None then None else if p == PRE then Some(Greater) else Some(Less)
  {
    if p.Word? && Cut(p).Some? {
      CutBegins(p);
      CutExactly(p);
    }
  }

  /** Main result: a version that can be read is below every extension of it by more parts whose
      first can be cut out, unless that is `pre`; then it is above. Otherwise there is no answer. */
  lemma Extension(x: string, y: string, more: seq<Part>)
    requires Parts(y) == Parts(x) + more && more != []
    ensures CompareVersions(x, y)
         == if !Readable(Parts(x)) || Cut(more[0]) == None then None
            else if more[0] == PRE then Some(Greater) else Some(Less)
  {
    var (qs, rs) := ([Word("")], more + [Word("")]);
    assert Parts(y) + [Word("")] == Parts(x) + rs;
    CommonPrefix(Parts(x), qs, rs);
    NoEmptyParts(y);
    assert more[0] == Parts(y)[|Parts(x)|];
    assert rs[0] == more[0];
    AgainstEmpty(more[0]);
    hide CompareRuns, Cut, Parts;
  }

  /** The same for what follows a divider: `2.3 < 2.3.1`, and `2.3 > 2.3-pre`. */
  lemma DividedExtension(x: string, d: char, t: string)
    requires IsDivider(d) && Parts(t) != []
    ensures CompareVersions(x, x + ([d] + t))
         == if !Readable(Parts(x)) || Cut(Parts(t)[0]) == None then None
            else if Parts(t)[0] == PRE then Some(Greater) else Some(Less)
  {
    PartsOfDivided(x, d, t);
    Extension(x, x + ([d] + t), Parts(t));
  }
}
