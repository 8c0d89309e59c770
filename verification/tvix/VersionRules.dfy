// Versions by their characters: where parts begin and end, and which of two versions is less.
module VersionRules {
  import opened Common
  import opened Versions
  import opened VersionOrder
  import Utf8

  // ---- Parts

  ghost predicate DigitsOnly(s: string) {
    forall i :: 0 <= i < |s| ==> '0' <= s[i] <= '9'
  }

  ghost predicate OthersOnly(s: string) {
    forall i :: 0 <= i < |s| ==> !('0' <= s[i] <= '9') && s[i] != '.' && s[i] != '-'
  }

  /** The text does not go on with a character of the same kind. */
  ghost predicate Changes(digits: bool, t: string) {
    t != "" ==> t[0] == '.' || t[0] == '-' || ('0' <= t[0] <= '9') != digits
  }

  /** Digits in a row are one number, and all else but dots and dashes, underscores included, is
      one word. */
  lemma RunThen(s: string, t: string)
    requires s != "" && (DigitsOnly(s) || OthersOnly(s)) && Changes(DigitsOnly(s), t)
    ensures Parts(s + t) == [if DigitsOnly(s) then Number(s) else Word(s)] + Parts(t)
  {
    var all := s + t;
    assert DigitsOnly(s) || !('0' <= s[0] <= '9');
    FirstPart(all, DigitsOnly(s), |s|);
    assert all[..|s|] == s && all[|s|..] == t;
    hide Parts;
  }

  /** A dot and a dash are between parts. */
  lemma DividerThen(t: string)
    ensures Parts("") == [] && Parts("." + t) == Parts(t) && Parts("-" + t) == Parts(t)
  {
    PartsOfDivider("." + t);
    PartsOfDivider("-" + t);
    assert ("." + t)[1..] == t && ("-" + t)[1..] == t;
  }

  /** The instances: an underscore does not divide. */
  lemma Dividers()
    ensures Parts("2.3-pre") == [Number("2"), Number("3"), Word("pre")]
    ensures Parts("a_b") == [Word("a_b")]
  {
    hide Parts;
    assert "pre"[0] == 'p' && "a_b"[0] == 'a';
    assert !DigitsOnly("pre") && !DigitsOnly("a_b") && DigitsOnly("2") && DigitsOnly("3");
    DividerThen("");
    RunThen("pre", "");
    RunThen("a_b", "");
    assert "pre" + "" == "pre" && "a_b" + "" == "a_b";
    assert Parts("pre") == [Word("pre")] + [] && Parts("a_b") == [Word("a_b")] + [];
    DividerThen("pre");
    assert "-" + "pre" == "-pre" && "3" + "-pre" == "3-pre" && "." + "3-pre" == ".3-pre" && "2" + ".3-pre" == "2.3-pre";
    RunThen("3", "-pre");
    DividerThen("3-pre");
    RunThen("2", ".3-pre");
  }

  lemma {:induction false} RunOfDigits(s: string, digits: bool)
    ensures digits ==> DigitsOnly(s[..RunLength(s, digits)])
  {
    if RunLength(s, digits) > 0 {
      RunOfDigits(s[1..], digits);
      assert s[..RunLength(s, digits)] == [s[0]] + s[1..][..RunLength(s[1..], digits)];
    }
  }

  lemma {:induction false} NumbersAreDigits(s: string)
    ensures forall p :: p in Parts(s) && p.Number? ==> p.text != "" && DigitsOnly(p.text)
    decreases |s|
  {
    if s != "" {
      if IsDivider(s[0]) {
        NumbersAreDigits(s[1..]);
      } else {
        PartsOfRun(s);
        RunOfDigits(s, IsDigit(s[0]));
        NumbersAreDigits(s[RunLength(s, IsDigit(s[0]))..]);
        hide Parts;
      }
    }
  }

  /** A character is as wide as its encoding is long. */
  lemma WidthIs(c: char)
    ensures Width(c) == |Utf8.OfChar(c)|
  {}

  // ---- Numbers

  ghost function Pow10(e: nat): nat {
    if e == 0 then 1 else 10 * Pow10(e - 1)
  }

  ghost function Digit(c: char): nat {
    if '0' <= c <= '9' then c as int - '0' as int else 0
  }

  /** Each digit times the power of ten of its place. */
  ghost function Decimal(s: string): nat {
    if s == "" then 0 else Digit(s[0]) * Pow10(|s| - 1) + Decimal(s[1..])
  }

  lemma Scaled(a: nat, p: nat, b: nat)
    ensures 10 * (a * p + b) == a * (10 * p) + 10 * b
  {}

  lemma {:induction false} DecimalSnoc(s: string)
    requires s != ""
    ensures Decimal(s) == 10 * Decimal(s[..|s| - 1]) + Digit(s[|s| - 1])
  {
    var n := |s| - 1;
    if n == 0 {
      assert s[1..] == "" && s[..0] == "";
    } else {
      DecimalSnoc(s[1..]);
      assert s[1..][..n - 1] == s[..n][1..];
      assert s[1..][n - 1] == s[n];
      Scaled(Digit(s[0]), Pow10(n - 1), Decimal(s[1..][..n - 1]));
    }
  }

  lemma {:induction false} ValueIsDecimal(s: string)
    ensures Value(s) == Decimal(s)
  {
    if s != "" {
      DecimalSnoc(s);
      ValueIsDecimal(s[..|s| - 1]);
    }
  }

  /** Leading zeros do not count. */
  lemma LeadingZero(s: string)
    ensures Decimal("0" + s) == Decimal(s)
  {
    assert ("0" + s)[1..] == s;
  }

  // ---- The first parts that differ

  /** All parts can be cut out, and the numbers fit 64 bits. */
  ghost predicate CanBeRead(ps: seq<Part>) {
    forall p :: p in ps ==> Cut(p).Some? && (p.Number? ==> Decimal(p.text) < 18446744073709551616)
  }

  lemma ReadableIs(ps: seq<Part>)
    ensures Readable(ps) <==> CanBeRead(ps)
  {
    forall i | 0 <= i < |ps| ensures Fits(ps[i]) <==> (ps[i].Number? ==> Decimal(ps[i].text) < 18446744073709551616) {
      ValueIsDecimal(ps[i].text);
    }
    hide Fits, Decimal, Cut;
    if Readable(ps) {
      forall p | p in ps ensures Cut(p).Some? && (p.Number? ==> Decimal(p.text) < 18446744073709551616) {
        var i :| 0 <= i < |ps| && ps[i] == p;
      }
    }
  }

  /** Two versions that have the parts `ps` in common, and then `p` and `q`. */
  ghost predicate Differ(x: string, y: string, ps: seq<Part>, p: Part, q: Part, more: seq<Part>, more': seq<Part>) {
    Parts(x) == ps + ([p] + more) && Parts(y) == ps + ([q] + more') && CanBeRead(ps)
  }

  lemma FirstDecides(x: string, y: string, ps: seq<Part>, p: Part, q: Part, more: seq<Part>, more': seq<Part>)
    requires Differ(x, y, ps, p, q, more, more')
    ensures CompareVersions(x, y)
         == if CompareRuns(p, q) == Some(Equal) then CompareParts(more + [Word("")], more' + [Word("")])
            else CompareRuns(p, q)
  {
    ReadableIs(ps);
    var (qs, rs) := ([p] + (more + [Word("")]), [q] + (more' + [Word("")]));
    assert Parts(x) + [Word("")] == ps + qs && Parts(y) + [Word("")] == ps + rs;
    CommonPrefix(ps, qs, rs);
    assert qs[1..] == more + [Word("")] && rs[1..] == more' + [Word("")];
    hide Parts, CompareRuns, Readable, CanBeRead;
  }

  /** Main result: where two numbers are the first parts that differ, the smaller number is in the
      smaller version, leading zeros or not; equal numbers leave it to what follows, and one that
      does not fit 64 bits ends the program. */
  lemma NumbersDecide(x: string, y: string, ps: seq<Part>, d: string, e: string, more: seq<Part>, more': seq<Part>)
    requires Differ(x, y, ps, Number(d), Number(e), more, more')
    ensures CompareVersions(x, y) ==
      if Decimal(d) >= 18446744073709551616 || Decimal(e) >= 18446744073709551616 then None
      else if Decimal(d) < Decimal(e) then Some(Less)
      else if Decimal(d) > Decimal(e) then Some(Greater)
      else CompareParts(more + [Word("")], more' + [Word("")])
  {
    FirstDecides(x, y, ps, Number(d), Number(e), more, more');
    ValueIsDecimal(d);
    ValueIsDecimal(e);
    hide Value, Decimal, CompareParts, CompareVersions, Differ;
  }

  /** A number is above every word that can be cut out. */
  lemma NumberAboveWord(x: string, y: string, ps: seq<Part>, d: string, w: string, more: seq<Part>, more': seq<Part>)
    requires Differ(x, y, ps, Number(d), Word(w), more, more')
    ensures CompareVersions(x, y) == if Cut(Word(w)) == None then None else Some(Greater)
    ensures CompareVersions(y, x) == if Cut(Word(w)) == None then None else Some(Less)
  {
    FirstDecides(x, y, ps, Number(d), Word(w), more, more');
    FirstDecides(y, x, ps, Word(w), Number(d), more', more);
    CutWord(w);
    hide Parts, CompareParts, CompareVersions, Differ, Cut, DropBytes;
    assert Cut(Number(d)) == Some(Number(d)) by { CutNumber(d); }
  }

  lemma CutNumber(d: string)
    ensures Cut(Number(d)) == Some(Number(d))
  {}

  lemma CutWord(w: string)
    ensures Cut(Word(w)).Some? ==> Cut(Word(w)).value.Word?
  {}

  /** The first place where two texts differ, or one of them ends. */
  ghost predicate PartAt(a: string, b: string, n: nat) {
    n <= |a| && n <= |b| && a[..n] == b[..n] && (n < |a| && n < |b| ==> a[n] != b[n])
  }

  lemma {:induction false} TextAt(a: string, b: string, n: nat)
    requires PartAt(a, b, n)
    ensures CompareText(a, b) ==
      if n == |a| && n == |b| then Equal
      else if n == |a| || (n < |b| && a[n] < b[n]) then Less
      else Greater
  {
    if n > 0 {
      assert a[..n][0] == b[..n][0];
      assert a[1..][..n - 1] == a[..n][1..] && b[1..][..n - 1] == b[..n][1..];
      TextAt(a[1..], b[1..], n - 1);
    }
  }

  lemma {:induction false} PartSomewhere(a: string, b: string) returns (n: nat)
    ensures PartAt(a, b, n)
  {
    if a == "" || b == "" || a[0] != b[0] {
      n := 0;
      assert a[..0] == b[..0];
    } else {
      n := PartSomewhere(a[1..], b[1..]);
      assert a[..n + 1] == [a[0]] + a[1..][..n] && b[..n + 1] == [b[0]] + b[1..][..n];
      n := n + 1;
    }
  }

  /** Main result: of two words as they are cut out, `pre` is in the smaller version, and otherwise
      the one that ends first or has the smaller character where they differ first. */
  lemma WordsDecide(x: string, y: string, ps: seq<Part>, v: string, w: string, a: string, b: string, n: nat,
                    more: seq<Part>, more': seq<Part>)
    requires Differ(x, y, ps, Word(v), Word(w), more, more')
    requires Cut(Word(v)) == Some(Word(a)) && Cut(Word(w)) == Some(Word(b)) && PartAt(a, b, n)
    ensures CompareVersions(x, y) ==
      if n == |a| && n == |b| then CompareParts(more + [Word("")], more' + [Word("")])
      else if a == "pre" then Some(Less)
      else if b == "pre" then Some(Greater)
      else if n == |a| || (n < |b| && a[n] < b[n]) then Some(Less)
      else Some(Greater)
  {
    FirstDecides(x, y, ps, Word(v), Word(w), more, more');
    TextAt(a, b, n);
    hide Cut, CompareParts, CompareVersions, Differ, CompareText;
    assert a[..|a|] == a && b[..|b|] == b;
  }
}
