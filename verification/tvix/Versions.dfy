// Version strings: how they are split into parts, and how versions compare.
module Versions {
  import opened Common

  datatype Ordering = Less | Equal | Greater {
    function Reversed(): Ordering {
      match this
      case Less => Greater
      case Equal => Equal
      case Greater => Less
    }
  }

  datatype Part = Word(text: string) | Number(text: string)

  predicate IsDivider(c: char) {
    c == '.' || c == '-'
  }

  predicate IsDigit(c: char) {
    '0' <= c <= '9'
  }

  /** The characters from `a` up to `b` are all digits, or all neither digits nor dividers. */
  predicate IsRun(s: string, a: nat, b: nat, digits: bool)
    requires b <= |s|
  {
    forall i :: a <= i < b ==> !IsDivider(s[i]) && IsDigit(s[i]) == digits
  }

  // Splitting, as it is meant.

  /** The length of the longest run of characters of one kind at the front. */
  function RunLength(s: string, digits: bool): (n: nat)
    ensures n <= |s|
  {
    if s != "" && !IsDivider(s[0]) && IsDigit(s[0]) == digits then 1 + RunLength(s[1..], digits) else 0
  }

  /** The maximal digit and non-digit runs between dividers. */
  function Parts(s: string): seq<Part>
    decreases |s|
  {
    if s == "" then []
    else if IsDivider(s[0]) then Parts(s[1..])
    else
      var digits := IsDigit(s[0]);
      var n := RunLength(s, digits);
      [if digits then Number(s[..n]) else Word(s[..n])] + Parts(s[n..])
  }

  lemma {:induction false} RunLengthIs(s: string, digits: bool, n: nat)
    requires n <= |s|
    requires IsRun(s, 0, n, digits)
    requires n < |s| ==> IsDivider(s[n]) || IsDigit(s[n]) != digits
    ensures RunLength(s, digits) == n
  {
    if n > 0 {
      assert forall i :: 0 <= i < n - 1 ==> s[1..][i] == s[i + 1];
      RunLengthIs(s[1..], digits, n - 1);
    }
  }

  /** A run that is followed by its end is the first part. */
  lemma FirstPart(s: string, digits: bool, n: nat)
    requires 0 < n <= |s|
    requires IsRun(s, 0, n, digits)
    requires n < |s| ==> IsDivider(s[n]) || IsDigit(s[n]) != digits
    ensures Parts(s) == [if digits then Number(s[..n]) else Word(s[..n])] + Parts(s[n..])
  {
    RunLengthIs(s, digits, n);
  }

  lemma {:induction false} RunLengthAppend(s: string, t: string, digits: bool)
    requires t == "" || IsDivider(t[0])
    ensures RunLength(s + t, digits) == RunLength(s, digits)
  {
    if s == "" {
      assert s + t == t;
    } else {
      assert (s + t)[1..] == s[1..] + t;
      RunLengthAppend(s[1..], t, digits);
    }
  }

  lemma PartsOfRun(s: string)
    requires s != "" && !IsDivider(s[0])
    ensures var (digits, n) := (IsDigit(s[0]), RunLength(s, IsDigit(s[0])));
      n > 0 && Parts(s) == [if digits then Number(s[..n]) else Word(s[..n])] + Parts(s[n..])
  {}

  lemma PartsOfDivider(s: string)
    requires s == "" || IsDivider(s[0])
    ensures Parts(s) == if s == "" then [] else Parts(s[1..])
  {}

  /** A divider separates: the parts are those of both sides. */
  lemma {:induction false} PartsOfDivided(s: string, d: char, t: string)
    requires IsDivider(d)
    ensures Parts(s + ([d] + t)) == Parts(s) + Parts(t)
    decreases |s|
  {
    hide Parts, RunLength;
    var all := s + ([d] + t);
    if s == "" {
      PartsOfDivider(s);
      PartsOfDivider(all);
      assert all[1..] == t;
    } else if IsDivider(s[0]) {
      PartsOfDivider(s);
      PartsOfDivider(all);
      assert all[1..] == s[1..] + ([d] + t);
      PartsOfDivided(s[1..], d, t);
    } else {
      PartsOfRun(s);
      PartsOfRun(all);
      var n := RunLength(s, IsDigit(s[0]));
      RunLengthAppend(s, [d] + t, IsDigit(s[0]));
      assert all[..n] == s[..n] && all[n..] == s[n..] + ([d] + t);
      PartsOfDivided(s[n..], d, t);
    }
  }

  function WithoutDividers(s: string): string {
    if s == "" then ""
    else (if IsDivider(s[0]) then "" else [s[0]]) + WithoutDividers(s[1..])
  }

  function Joined(ps: seq<Part>): string {
    if ps == [] then "" else ps[0].text + Joined(ps[1..])
  }

  lemma {:induction false} WithoutDividersRun(s: string, digits: bool)
    ensures var n := RunLength(s, digits); WithoutDividers(s) == s[..n] + WithoutDividers(s[n..])
  {
    var n := RunLength(s, digits);
    if n > 0 {
      WithoutDividersRun(s[1..], digits);
      assert s[..n] == [s[0]] + s[1..][..n - 1];
      assert s[1..][n - 1..] == s[n..];
    }
  }

  /** Splitting loses nothing but the dividers. */
  lemma {:induction false} PartsKeepText(s: string)
    ensures Joined(Parts(s)) == WithoutDividers(s)
    decreases |s|
  {
    if s != "" {
      if IsDivider(s[0]) {
        PartsKeepText(s[1..]);
      } else {
        var n := RunLength(s, IsDigit(s[0]));
        WithoutDividersRun(s, IsDigit(s[0]));
        PartsKeepText(s[n..]);
        assert Parts(s)[1..] == Parts(s[n..]);
      }
    }
  }

  // Splitting, as the iterator does it.

  ghost function PartsFrom(s: string, k: nat): seq<Part>
    requires k <= |s|
  {
    Parts(s[k..])
  }

  lemma PartsFromDivider(s: string, k: nat)
    requires k <= |s| && (k == |s| || IsDivider(s[k]))
    ensures PartsFrom(s, k) == if k == |s| then [] else PartsFrom(s, k + 1)
  {
    PartsOfDivider(s[k..]);
    if k < |s| {
      assert s[k..][1..] == s[k + 1..];
    }
  }

  // Positions in bytes.

  /** `len_utf8` */
  function Width(c: char): (w: nat)
    ensures 1 <= w <= 4
  {
    if c as int < 0x80 then 1 else if c as int < 0x800 then 2 else if c as int < 0x10000 then 3 else 4
  }

  /** Where character `k` begins. */
  function Offset(s: string, k: nat): nat
    requires k <= |s|
  {
    if k == 0 then 0 else Offset(s, k - 1) + Width(s[k - 1])
  }

  /** The character that begins at byte `b`. */
  function IndexFrom(s: string, b: nat, k: nat): (r: Option<nat>)
    requires k <= |s|
    ensures r.Some? ==> r.value <= |s|
    decreases |s| - k
  {
    if Offset(s, k) == b then Some(k)
    else if k == |s| then None
    else IndexFrom(s, b, k + 1)
  }

  /** `&s[a..b]`; none when a byte is within a character, or the first behind the second. */
  function Slice(s: string, a: nat, b: nat): Option<string> {
    match (IndexFrom(s, a, 0), IndexFrom(s, b, 0))
    case (Some(i), Some(j)) => if i <= j then Some(s[i..j]) else None
    case _ => None
  }

  /** Without the last `n` bytes; none if those are not whole characters. */
  function DropBytes(t: string, n: nat): Option<string> {
    if n == 0 then Some(t)
    else if t == "" || Width(t[|t| - 1]) > n then None
    else DropBytes(t[..|t| - 1], n - Width(t[|t| - 1]))
  }

  /** What the iterator makes of a run: a word that begins with a character of several bytes
      loses all of these but one at its end, if it can. */
  function Cut(p: Part): Option<Part> {
    match p
    case Number(_) => Some(p)
    case Word(t) =>
      if t == "" then Some(p)
      else match DropBytes(t, Width(t[0]) - 1)
        case Some(u) => Some(Word(u))
        case None => None
  }

  lemma {:induction false} OffsetRises(s: string, i: nat, j: nat)
    requires i < j <= |s|
    ensures Offset(s, i) + Width(s[j - 1]) <= Offset(s, j)
  {
    if i < j - 1 {
      OffsetRises(s, i, j - 1);
    }
  }

  lemma {:induction false} IndexIs(s: string, k: nat, from: nat)
    requires from <= k <= |s|
    ensures IndexFrom(s, Offset(s, k), from) == Some(k)
    decreases k - from
  {
    if from < k {
      OffsetRises(s, from, k);
      IndexIs(s, k, from + 1);
    }
  }

  lemma {:induction false} IndexIsNone(s: string, b: nat, j: nat, from: nat)
    requires from <= |s| && 0 < j <= |s| && Offset(s, j - 1) < b < Offset(s, j)
    ensures IndexFrom(s, b, from) == None
    decreases |s| - from
  {
    if from < j - 1 {
      OffsetRises(s, from, j - 1);
    } else if from > j {
      OffsetRises(s, j, from);
    }
    if from < |s| {
      IndexIsNone(s, b, j, from + 1);
    }
  }

  /** Cutting bytes off the end of a slice is dropping them. */
  lemma {:induction false} SliceDrops(s: string, i: nat, j: nat, n: nat)
    requires i <= j <= |s| && Offset(s, i) + n <= Offset(s, j)
    ensures Slice(s, Offset(s, i), Offset(s, j) - n) == DropBytes(s[i..j], n)
    decreases j
  {
    IndexIs(s, i, 0);
    if n == 0 {
      IndexIs(s, j, 0);
    } else {
      var w := Width(s[j - 1]);
      assert s[i..j][..j - i - 1] == s[i..j - 1];
      if w > n {
        IndexIsNone(s, Offset(s, j) - n, j, 0);
      } else {
        if i < j - 1 {
          OffsetRises(s, i, j - 1);
        }
        SliceDrops(s, i, j - 1, n - w);
      }
    }
  }

  lemma {:induction false} DropShortens(t: string, n: nat)
    ensures DropBytes(t, n).Some? ==> |DropBytes(t, n).value| <= |t| && (DropBytes(t, n).value == t <==> n == 0)
  {
    if n > 0 && t != "" && Width(t[|t| - 1]) <= n {
      DropShortens(t[..|t| - 1], n - Width(t[|t| - 1]));
    }
  }

  /** The run begins with a character of one byte. */
  predicate Plain(p: Part) {
    p.Word? && p.text != "" ==> Width(p.text[0]) == 1
  }

  /** Main result: the iterator yields a run as it is exactly if it is a number, or a word that
      begins with a character of one byte. */
  lemma CutExactly(p: Part)
    ensures Cut(p) == Some(p) <==> Plain(p)
  {
    if p.Word? && p.text != "" {
      DropShortens(p.text, Width(p.text[0]) - 1);
    }
  }

  /** A word never loses its first character. */
  lemma {:induction false} DropKeepsFirst(t: string, n: nat)
    requires t != "" && n < Width(t[0])
    ensures DropBytes(t, n).Some? ==> DropBytes(t, n).value != "" && DropBytes(t, n).value[0] == t[0]
  {
    if 0 < n && |t| > 1 && Width(t[|t| - 1]) <= n {
      DropKeepsFirst(t[..|t| - 1], n - Width(t[|t| - 1]));
    }
  }

  lemma CutBegins(p: Part)
    requires p.text != "" && Cut(p).Some?
    ensures Cut(p).value.Word? == p.Word? && Cut(p).value.text != "" && Cut(p).value.text[0] == p.text[0]
  {
    if p.Word? {
      DropKeepsFirst(p.text, Width(p.text[0]) - 1);
    }
  }

  /** All parts as the iterator yields them; none if it ends the program. */
  function CutAll(ps: seq<Part>): Option<seq<Part>> {
    if ps == [] then Some([])
    else match (Cut(ps[0]), CutAll(ps[1..]))
      case (Some(p), Some(rest)) => Some([p] + rest)
      case _ => None
  }

  /** Splitting gives the runs as they are exactly if all are plain. */
  lemma {:induction false} CutAllExactly(ps: seq<Part>)
    ensures CutAll(ps) == Some(ps) <==> forall i :: 0 <= i < |ps| ==> Plain(ps[i])
  {
    if ps != [] {
      CutExactly(ps[0]);
      CutAllExactly(ps[1..]);
      hide Cut, Plain;
      assert forall i :: 0 <= i < |ps| - 1 ==> ps[1..][i] == ps[i + 1];
      assert forall i :: 0 < i < |ps| ==> ps[i] == ps[1..][i - 1];
      assert ps == [ps[0]] + ps[1..];
    }
  }

  datatype InternalPart =
    | NumberRange(first: nat, last: nat)
    | WordRange(first: nat, last: nat)
    | Break

  /** The end, a part, or a slice that ends within a character, which ends the program. */
  datatype Yield = End | Got(part: Part) | Panic

  /** What an iterator yields that still has these parts to come. */
  function YieldOf(rest: seq<Part>): Yield {
    if rest == [] then End
    else match Cut(rest[0])
      case Some(p) => Got(p)
      case None => Panic
  }

  function Tail(rest: seq<Part>): seq<Part> {
    if rest == [] then [] else rest[1..]
  }

  /** What is taken from a range. */
  function TakeOf(version: string, cached: InternalPart): Yield
    requires !cached.Break?
  {
    match Slice(version, cached.first, cached.last + 1)
    case None => Panic
    case Some(text) => Got(if cached.NumberRange? then Number(text) else Word(text))
  }

  /** An iterator over the parts of a string. Ranges are inclusive, and in bytes. */
  class VersionPartsIter {
    var cachedPart: InternalPart
    var pos: nat
    var offset: nat
    ghost var start: nat
    const version: string

    ghost predicate Valid()
      reads this
    {
      Holds(version, cachedPart, start, pos, offset)
    }

    /** The parts that are still to come, as they are meant. */
    ghost function Rest(): seq<Part>
      requires Valid()
      reads this
    {
      ToCome(version, cachedPart, start, pos)
    }

    constructor (version: string)
      ensures Valid() && Rest() == Parts(version)
    {
      this.version := version;
      cachedPart := Break;
      pos, offset, start := 0, 0, 0;
      new;
      assert version[0..] == version;
    }

    /** The part in a range. */
    method Take(cached: InternalPart) returns (r: Yield)
      requires !cached.Break?
      ensures r == TakeOf(version, cached)
    {
      var text := Slice(version, cached.first, cached.last + 1);
      return if text.None? then Panic else Got(if cached.NumberRange? then Number(text.value) else Word(text.value));
    }

    /** `next` */
    method Next() returns (r: Yield)
      requires Valid()
      modifies this
      ensures Valid()
      ensures r == YieldOf(old(Rest())) && Rest() == Tail(old(Rest()))
      decreases |version| - pos
    {
      var (cached, p) := (cachedPart, pos);
      ghost var from := start;
      hide ToCome, YieldOf, Tail, TakeOf, IsDivider, IsDigit;
      InText(version, cached, from, p, offset);
      if pos == |version| {
        cachedPart := Break;
        AtEnd(version, cached, from, p, offset);
        if cached.Break? {
          return End;
        }
        r := Take(cached);
        return;
      }
      var (c, at) := (version[pos], offset);
      pos, offset := pos + 1, offset + Width(c);
      if IsDivider(c) {
        cachedPart := Break;
        AtDivider(version, cached, from, p, at);
        if cached.Break? {
          r := Next();
        } else {
          r := Take(cached);
        }
      } else if IsDigit(c) {
        cachedPart := NumberRange(at, at);
        match cached
        case NumberRange(a, b) =>
          cachedPart := NumberRange(a, b + 1);
          Continues(version, cached, from, p, at);
          r := Next();
        case WordRange(_, _) =>
          start := p;
          Changes(version, cached, from, p, at);
          r := Take(cached);
        case Break =>
          start := p;
          Begins(version, from, p, at);
          r := Next();
      } else {
        cachedPart := WordRange(at, at);
        match cached
        case WordRange(a, b) =>
          cachedPart := WordRange(a, b + Width(c));
          Continues(version, cached, from, p, at);
          r := Next();
        case NumberRange(_, _) =>
          start := p;
          Changes(version, cached, from, p, at);
          r := Take(cached);
        case Break =>
          start := p;
          Begins(version, from, p, at);
          r := Next();
      }
    }
  }

  /** `builtin_split_version` */
  method BuiltinSplitVersion(s: string) returns (r: Option<seq<Part>>)
    ensures r == CutAll(Parts(s))
  {
    hide Parts, CutAll, YieldOf, Tail;
    var iter := new VersionPartsIter(s);
    var parts: seq<Part> := [];
    AfterNothing(CutAll(iter.Rest()));
    while true
      invariant iter.Valid() && fresh(iter)
      invariant After(parts, CutAll(iter.Rest())) == CutAll(Parts(s))
      decreases |iter.Rest()|
    {
      CutAllStep(parts, iter.Rest());
      var part := iter.Next();
      match part
      case End => return Some(parts);
      case Panic => return None;
      case Got(p) => parts := parts + [p];
    }
  }

  lemma CutAllStep(parts: seq<Part>, rest: seq<Part>)
    ensures After(parts, CutAll(rest)) ==
      match YieldOf(rest)
      case End => Some(parts)
      case Got(p) => After(parts + [p], CutAll(Tail(rest)))
      case Panic => None
    ensures YieldOf(rest).Got? ==> |Tail(rest)| < |rest|
  {
    hide Cut;
    if rest == [] {
      assert parts + [] == parts;
    } else if CutAll(rest).Some? {
      var (p, more) := (Cut(rest[0]).value, CutAll(rest[1..]).value);
      assert parts + ([p] + more) == (parts + [p]) + more;
    }
  }

  lemma AfterNothing(rest: Option<seq<Part>>)
    ensures After([], rest) == rest
  {
    if rest.Some? {
      assert [] + rest.value == rest.value;
    }
  }

  function After(parts: seq<Part>, rest: Option<seq<Part>>): Option<seq<Part>> {
    match rest
    case None => None
    case Some(more) => Some(parts + more)
  }

  /** The run that began at character `start` is cached; the range ends too early by what the first
      character has more than one byte. */
  ghost predicate Cached(version: string, start: nat, pos: nat, digits: bool, a: nat, b: nat) {
    && start < pos <= |version| && IsRun(version, start, pos, digits)
    && a == Offset(version, start) && b + Width(version[start]) == Offset(version, pos)
  }

  ghost predicate Holds(version: string, cached: InternalPart, start: nat, pos: nat, offset: nat) {
    && pos <= |version| && offset == Offset(version, pos)
    && (!cached.Break? ==> Cached(version, start, pos, cached.NumberRange?, cached.first, cached.last))
  }

  ghost function ToCome(version: string, cached: InternalPart, start: nat, pos: nat): seq<Part>
    requires pos <= |version| && (!cached.Break? ==> start <= |version|)
  {
    PartsFrom(version, if cached.Break? then pos else start)
  }

  /** The range that begins at a character. */
  function Single(digits: bool, at: nat): InternalPart {
    if digits then NumberRange(at, at) else WordRange(at, at)
  }

  /** The range that goes on by a character. */
  function Longer(cached: InternalPart, w: nat): InternalPart
    requires !cached.Break?
  {
    match cached
    case NumberRange(a, b) => NumberRange(a, b + w)
    case WordRange(a, b) => WordRange(a, b + w)
  }

  lemma InText(version: string, cached: InternalPart, start: nat, pos: nat, offset: nat)
    requires Holds(version, cached, start, pos, offset)
    ensures pos <= |version| && (!cached.Break? ==> start <= |version|)
  {}

  /** What is taken from the range is what `Cut` makes of the run. */
  lemma CachedIsCut(version: string, cached: InternalPart, start: nat, pos: nat)
    requires !cached.Break? && Cached(version, start, pos, cached.NumberRange?, cached.first, cached.last)
    ensures var text := version[start..pos];
      TakeOf(version, cached) == YieldOf([if cached.NumberRange? then Number(text) else Word(text)])
  {
    var w := Width(version[start]);
    FirstFits(version, start, pos);
    SliceDrops(version, start, pos, w - 1);
    assert version[start..pos][0] == version[start];
    hide Slice, DropBytes, Offset;
    assert cached.NumberRange? ==> w == 1;
    DropNone(version[start..pos]);
  }

  lemma DropNone(t: string)
    ensures DropBytes(t, 0) == Some(t)
  {}

  lemma {:induction false} FirstFits(s: string, i: nat, j: nat)
    requires i < j <= |s|
    ensures Offset(s, i) + Width(s[i]) <= Offset(s, j)
  {
    if i < j - 1 {
      FirstFits(s, i, j - 1);
    }
  }

  /** Where the cached run ends, it is the first of the parts to come. */
  lemma CachedIsFirst(version: string, cached: InternalPart, start: nat, pos: nat)
    requires !cached.Break? && Cached(version, start, pos, cached.NumberRange?, cached.first, cached.last)
    requires pos < |version| ==> IsDivider(version[pos]) || IsDigit(version[pos]) != cached.NumberRange?
    ensures TakeOf(version, cached) == YieldOf(ToCome(version, cached, start, pos))
    ensures ToCome(version, cached, start, pos) != []
    ensures ToCome(version, Break, start, pos) == Tail(ToCome(version, cached, start, pos))
  {
    var (s, n) := (version[start..], pos - start);
    assert s[..n] == version[start..pos] && s[n..] == version[pos..];
    if pos < |version| {
      assert s[n] == version[pos];
    }
    FirstPart(s, cached.NumberRange?, n);
    CachedIsCut(version, cached, start, pos);
    hide Cut, TakeOf, Parts;
  }

  /** Nothing is left but what is cached. */
  lemma AtEnd(version: string, cached: InternalPart, start: nat, pos: nat, offset: nat)
    requires Holds(version, cached, start, pos, offset) && pos == |version|
    ensures (if cached.Break? then End else TakeOf(version, cached)) == YieldOf(ToCome(version, cached, start, pos))
    ensures ToCome(version, Break, start, pos) == Tail(ToCome(version, cached, start, pos))
  {
    if cached.Break? {
      PartsFromDivider(version, pos);
    } else {
      CachedIsFirst(version, cached, start, pos);
    }
  }

  lemma AtDivider(version: string, cached: InternalPart, start: nat, pos: nat, offset: nat)
    requires Holds(version, cached, start, pos, offset) && pos < |version| && IsDivider(version[pos])
    ensures Holds(version, Break, start, pos + 1, offset + Width(version[pos]))
    ensures cached.Break? ==> ToCome(version, Break, start, pos + 1) == ToCome(version, cached, start, pos)
    ensures !cached.Break? ==>
      && TakeOf(version, cached) == YieldOf(ToCome(version, cached, start, pos))
      && ToCome(version, Break, start, pos + 1) == Tail(ToCome(version, cached, start, pos))
  {
    PartsFromDivider(version, pos);
    if !cached.Break? {
      CachedIsFirst(version, cached, start, pos);
    }
  }

  /** A run begins. */
  lemma Begins(version: string, start: nat, pos: nat, offset: nat)
    requires Holds(version, Break, start, pos, offset) && pos < |version| && !IsDivider(version[pos])
    ensures var cached := Single(IsDigit(version[pos]), offset);
      && Holds(version, cached, pos, pos + 1, offset + Width(version[pos]))
      && ToCome(version, cached, pos, pos + 1) == ToCome(version, Break, start, pos)
  {}

  /** The cached run goes on. */
  lemma Continues(version: string, cached: InternalPart, start: nat, pos: nat, offset: nat)
    requires Holds(version, cached, start, pos, offset) && pos < |version| && !IsDivider(version[pos])
    requires !cached.Break? && IsDigit(version[pos]) == cached.NumberRange?
    ensures cached.NumberRange? ==> Width(version[pos]) == 1
    ensures var longer := Longer(cached, Width(version[pos]));
      && Holds(version, longer, start, pos + 1, offset + Width(version[pos]))
      && ToCome(version, longer, start, pos + 1) == ToCome(version, cached, start, pos)
  {}

  /** The cached run ends where one of the other kind begins. */
  lemma Changes(version: string, cached: InternalPart, start: nat, pos: nat, offset: nat)
    requires Holds(version, cached, start, pos, offset) && pos < |version| && !IsDivider(version[pos])
    requires !cached.Break? && IsDigit(version[pos]) != cached.NumberRange?
    ensures TakeOf(version, cached) == YieldOf(ToCome(version, cached, start, pos))
    ensures var next := Single(IsDigit(version[pos]), offset);
      && Holds(version, next, pos, pos + 1, offset + Width(version[pos]))
      && ToCome(version, next, pos, pos + 1) == Tail(ToCome(version, cached, start, pos))
  {
    CachedIsFirst(version, cached, start, pos);
    Begins(version, start, pos, offset);
  }

  /** A word that begins with a character of two bytes loses its last one, or ends the program. */
  lemma WideWords()
    ensures Parts("\U{E9}a") == [Word("\U{E9}a")] && YieldOf(Parts("\U{E9}a")) == Got(Word("\U{E9}"))
    ensures Parts("\U{E9}") == [Word("\U{E9}")] && YieldOf(Parts("\U{E9}")) == Panic
  {
    var (s, t) := ("\U{E9}a", "\U{E9}");
    FirstPart(s, false, 2);
    FirstPart(t, false, 1);
    assert s[..2] == s && t[..1] == t && s[..1] == t;
    assert DropBytes(s, 1) == DropBytes(t, 0);
  }
}
