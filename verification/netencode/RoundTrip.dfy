// Parsing what `encode` has written. The round trip is exact: it works for a value
// if and only if no record in it is empty and no signed number is its type's minimum.
module RoundTrip {
  import opened Bytes
  import opened Nom
  import opened Netencode
  import opened Parse
  import Streaming

  lemma SizedOfFramed(open: char, content: Bytes, close: char, tail: Bytes)
    requires open < (128 as char) && close < (128 as char) && |content| <= USIZE_MAX
    ensures Sized(open, close, Framed(open, content, close) + tail) == Ok(tail, content)
  {
    hide Number;
    var s := Framed(open, content, close) + tail;
    var behind := content + ([close as byte] + tail);
    var s1 := Show(|content|) + ([':' as byte] + behind);
    assert s == [open as byte] + s1;
    assert s[1..] == s1;
    NumberOfShow(USIZE_MAX, |content|, [':' as byte] + behind);
    assert ([':' as byte] + behind)[1..] == behind;
    assert behind[..|content|] == content && behind[|content|..] == [close as byte] + tail;
    assert ([close as byte] + tail)[1..] == tail;
  }

  lemma HeaderOfPrinted(letter: byte, e: byte, letter': byte, e': byte, rest: Bytes)
    ensures NumberHeader(letter', e', [letter, e, ':' as byte] + rest)
         == if letter == letter' && e == e' then Ok(rest, ':' as byte) else Error
  {
    var s := [letter, e, ':' as byte] + rest;
    assert s == [letter, e] + ([':' as byte] + rest);
    assert s[2..] == [':' as byte] + rest;
    assert ([':' as byte] + rest)[1..] == rest;
    assert s[0] == letter && s[1] == e;
  }

  lemma BodyOfPrinted(max: nat, n: nat, tail: Bytes)
    ensures NumberBody(max, Show(n) + ([',' as byte] + tail)) == if n <= max then Ok(tail, n) else Error
  {
    hide Number;
    NumberOfShow(max, n, [',' as byte] + tail);
    assert ([',' as byte] + tail)[1..] == tail;
  }

  /** `alt` takes the only alternative that does not answer `Error`. */
  lemma {:induction false} OnlyAlternative(ts: seq<NumberType>, k: nat, s: Bytes)
    requires k < |ts|
    requires forall j :: 0 <= j < |ts| && j != k ==> NumberOf(ts[j], s) == Error
    ensures NumberP(ts, s) == NumberOf(ts[k], s)
  {
    hide NumberOf;
    if k == 0 {
      NoAlternative(ts[1..], s);
    } else {
      OnlyAlternative(ts[1..], k - 1, s);
    }
  }

  lemma {:induction false} NoAlternative(ts: seq<NumberType>, s: Bytes)
    requires forall j :: 0 <= j < |ts| ==> NumberOf(ts[j], s) == Error
    ensures NumberP(ts, s) == Error
  {
    hide NumberOf;
    if ts != [] {
      NoAlternative(ts[1..], s);
    }
  }

  function Letter(signed: bool): byte {
    if signed then 'i' as byte else 'n' as byte
  }

  lemma OtherType(t: NumberType, signed: bool, e: byte, rest: Bytes)
    requires t.signed != signed || t.exponent != e
    ensures NumberOf(t, [Letter(signed), e, ':' as byte] + rest) == Error
  {
    HeaderOfPrinted(Letter(signed), e, Letter(t.signed), t.exponent, rest);
    hide NumberHeader, NumberBody, OptChar;
  }

  /** A number is parsed by the alternative whose type tag was printed in front of it. */
  lemma NumbersOfPrinted(signed: bool, w: Width, rest: Bytes)
    ensures var s := [Letter(signed), w.Exponent(), ':' as byte] + rest;
      ValueP(s) == NumberOf(NumberType(signed, w.Exponent(), w), s)
  {
    var s := [Letter(signed), w.Exponent(), ':' as byte] + rest;
    assert s[0] == Letter(signed) && s[1] == w.Exponent();
    assert BooleanP(s) == Error;
    hide NumberOf, NumberP, TextP, BinaryP, UnitP, TagP, ListP, RecordP, ValueP, BooleanP;
    var k: nat := (if signed then 3 else 0) + match w case W3 => 0 case W6 => 1 case W7 => 2;
    forall j | 0 <= j < |NUMBER_TYPES| && j != k ensures NumberOf(NUMBER_TYPES[j], s) == Error {
      OtherType(NUMBER_TYPES[j], signed, w.Exponent(), rest);
    }
    OnlyAlternative(NUMBER_TYPES, k, s);
    Streaming.Dispatch(s);
  }

  lemma PrintedNatural(w: Width, n: nat, tail: Bytes)
    requires n <= w.NaturalMax()
    ensures ValueP(Encoded(VNatural(w, n)) + tail) == Ok(tail, Natural(w, n))
  {
    hide NumberP, ValueP, NumberHeader, NumberBody;
    var rest := Show(n) + ([',' as byte] + tail);
    assert Encoded(VNatural(w, n)) + tail == ['n' as byte, w.Exponent(), ':' as byte] + rest;
    NumbersOfPrinted(false, w, rest);
    HeaderOfPrinted('n' as byte, w.Exponent(), 'n' as byte, w.Exponent(), rest);
    BodyOfPrinted(w.NaturalMax(), n, tail);
  }

  lemma EncodedNumber(a: Bytes, b: Bytes, c: Bytes, tail: Bytes)
    ensures a + b + c + tail == a + (b + (c + tail))
  {}

  lemma ShownInt(i: int, behind: Bytes)
    ensures var digits := Show(if i < 0 then -i else i) + behind;
      && digits != [] && IsDigit(digits[0])
      && ShowInt(i) + behind == if i < 0 then ['-' as byte] + digits else digits
  {
    hide Show;
  }

  lemma IntegerParts(e: byte, w: Width, s: Bytes, s1: Bytes, s2: Bytes, negative: bool)
    requires NumberHeader('i' as byte, e, s) == Ok(s1, ':' as byte) && OptChar('-' as byte, s1) == Ok(s2, negative)
    ensures IntegerP(e, w, s)
         == match NumberBody(w.IntegerMax(), s2)
            case Ok(s3, n) => Ok(s3, Integer(w, if negative then 0 - n else n))
            case Incomplete => Incomplete
            case Error => Error
            case Failure => Failure
  {
    hide NumberHeader, NumberBody, OptChar;
  }

  lemma IntegerOfPrinted(w: Width, i: int, tail: Bytes)
    ensures var rest := ShowInt(i) + ([',' as byte] + tail);
      IntegerP(w.Exponent(), w, ['i' as byte, w.Exponent(), ':' as byte] + rest)
      == if -i <= w.IntegerMax() && i <= w.IntegerMax() then Ok(tail, Integer(w, i)) else Error
  {
    hide IntegerP, NumberHeader, NumberBody, OptChar, Show, ShowInt, Width.IntegerMax;
    var m: nat := if i < 0 then -i else i;
    var (behind, e) := ([',' as byte] + tail, w.Exponent());
    var rest := ShowInt(i) + behind;
    ShownInt(i, behind);
    HeaderOfPrinted('i' as byte, e, 'i' as byte, e, rest);
    SignOfPrinted(Show(m) + behind, i < 0);
    IntegerParts(e, w, ['i' as byte, e, ':' as byte] + rest, rest, Show(m) + behind, i < 0);
    BodyOfPrinted(w.IntegerMax(), m, tail);
  }

  /** The minimum is printed with digits that do not fit the type any more. */
  lemma PrintedInteger(w: Width, i: int, tail: Bytes)
    requires -1 - w.IntegerMax() <= i <= w.IntegerMax()
    ensures ValueP(Encoded(VInteger(w, i)) + tail)
         == if 0 - w.IntegerMax() <= i then Ok(tail, Integer(w, i)) else Error
  {
    hide ValueP, IntegerP, ShowInt;
    EncodedNumber(['i' as byte, w.Exponent(), ':' as byte], ShowInt(i), [',' as byte], tail);
    NumbersOfPrinted(true, w, ShowInt(i) + ([',' as byte] + tail));
    IntegerOfPrinted(w, i, tail);
  }

  lemma SignOfPrinted(digits: Bytes, negative: bool)
    requires digits != [] && IsDigit(digits[0])
    ensures OptChar('-' as byte, if negative then ['-' as byte] + digits else digits) == Ok(digits, negative)
  {
    if negative {
      assert (['-' as byte] + digits)[1..] == digits;
    }
  }

  /** What parsing `v`'s encoding with `tail` behind it may give: exactly `v` and `tail` when
      `works`, and otherwise an error or a different value. Either way it is decided. */
  ghost predicate Faithful(r: Parsed<Value>, v: Value, tail: Bytes, works: bool) {
    if works then r == Ok(tail, v)
    else !r.Incomplete? && (r.Ok? ==> r.rest == tail && r.value != v)
  }

  /** The round trip, for every order of record entries and every tail. */
  lemma {:induction false} RoundTrip(u: View, tail: Bytes)
    requires Typed(u) && Iterated(u) && |Encoded(u)| <= USIZE_MAX
    ensures Faithful(ValueP(Encoded(u) + tail), ToValue(u), tail, Encodable(u))
    decreases u, 0
  {
    hide ValueP, TagP, ItemsP, EntriesP, Inserted, Framed;
    match u
    case VUnit => PrintedUnit(tail);
    case VBoolean(b) => PrintedBoolean(b, tail);
    case VNatural(w, n) => PrintedNatural(w, n, tail);
    case VInteger(w, i) => PrintedInteger(w, i, tail);
    case VText(t) =>
      ContentIsShorter('t', t, ',');
      PrintedText(t, tail);
    case VBinary(t) =>
      ContentIsShorter('b', t, ',');
      PrintedText(t, tail);
    case VSum(t) =>
      TagRoundTrip(t, tail);
      PrintedSum(t, tail);
    case VRecord(es) =>
      ContentIsShorter('{', EncodedTags(es), '}');
      EntriesRoundTrip(es);
      InsertedEmpty(es);
      var r := EntriesP(EncodedTags(es));
      if r.Ok? && !EncodableTags(es) {
        TruncatedLoses(r.value, es);
      }
      PrintedRecord(es, tail);
    case VList(us) =>
      ContentIsShorter('[', EncodedAll(us), ']');
      ItemsRoundTrip(us);
      PrintedList(us, tail);
  }

  lemma ContentIsShorter(open: char, content: Bytes, close: char)
    requires open < (128 as char) && close < (128 as char)
    ensures |content| < |Framed(open, content, close)|
  {}

  lemma PrintedUnit(tail: Bytes)
    ensures ValueP(Encoded(VUnit) + tail) == Ok(tail, Unit)
  {
    var s := Encoded(VUnit) + tail;
    assert s[2..] == tail;
    Streaming.Dispatch(s);
  }

  lemma PrintedBoolean(b: bool, tail: Bytes)
    ensures ValueP(Encoded(VBoolean(b)) + tail) == Ok(tail, Boolean(b))
  {
    var s := Encoded(VBoolean(b)) + tail;
    assert s[3] == if b then '1' as byte else '0' as byte;
    assert s[5..] == tail;
    assert s[..5] == Encoded(VBoolean(b));
    hide NumberP;
    Streaming.Dispatch(s);
  }

  lemma PrintedText(t: Bytes, tail: Bytes)
    requires |t| <= USIZE_MAX
    ensures ValidUtf8(t) ==> ValueP(Framed('t', t, ',') + tail) == Ok(tail, Text(t))
    ensures ValueP(Framed('b', t, ',') + tail) == Ok(tail, Binary(t))
  {
    Starts('t', t, ',', tail);
    SizedOfFramed('t', t, ',', tail);
    Starts('b', t, ',', tail);
    SizedOfFramed('b', t, ',', tail);
    hide Sized, Framed, ValueP;
    Streaming.Dispatch(Framed('t', t, ',') + tail);
    Streaming.Dispatch(Framed('b', t, ',') + tail);
  }

  lemma PrintedSum(t: Tag<View>, tail: Bytes)
    ensures ValueP(EncodedTag(t) + tail) == TagP(EncodedTag(t) + tail).Or(p => Sum(p), Error)
  {
    Starts('<', t.tag, '|', Encoded(t.val) + tail);
    hide Framed, TagP, ValueP;
    assert EncodedTag(t) + tail == Framed('<', t.tag, '|') + (Encoded(t.val) + tail);
    Streaming.Dispatch(EncodedTag(t) + tail);
  }

  lemma PrintedList(us: seq<View>, tail: Bytes)
    requires |EncodedAll(us)| <= USIZE_MAX
    ensures var r := ItemsP(EncodedAll(us));
      ValueP(Framed('[', EncodedAll(us), ']') + tail) == if r.Ok? then Ok(tail, List(r.value)) else r.PropagateFailure()
  {
    var content := EncodedAll(us);
    hide EncodedAll, Framed, Sized, ItemsP, ValueP, TextP, BinaryP, UnitP, TagP, RecordP, BooleanP, NumberP;
    Starts('[', content, ']', tail);
    SizedOfFramed('[', content, ']', tail);
    Streaming.Dispatch(Framed('[', content, ']') + tail);
  }

  lemma PrintedRecord(es: seq<Tag<View>>, tail: Bytes)
    requires |EncodedTags(es)| <= USIZE_MAX
    ensures var r := EntriesP(EncodedTags(es));
      ValueP(Framed('{', EncodedTags(es), '}') + tail)
      == if !r.Ok? then r.PropagateFailure()
         else if Inserted(r.value) == map[] then Failure
         else Ok(tail, Record(Inserted(r.value)))
  {
    var content := EncodedTags(es);
    hide EncodedTags, Framed, Sized, EntriesP, Inserted, ValueP, TextP, BinaryP, UnitP, TagP, ListP, BooleanP, NumberP;
    Starts('{', content, '}', tail);
    SizedOfFramed('{', content, '}', tail);
    Streaming.Dispatch(Framed('{', content, '}') + tail);
  }

  lemma Starts(open: char, content: Bytes, close: char, tail: Bytes)
    requires open < (128 as char) && close < (128 as char)
    ensures var s := Framed(open, content, close) + tail; s != [] && s[0] == open as byte
  {}

  lemma {:induction false} TagRoundTrip(t: Tag<View>, tail: Bytes)
    requires Typed(t.val) && Iterated(t.val) && ValidUtf8(t.tag) && |EncodedTag(t)| <= USIZE_MAX
    ensures var r := TagP(EncodedTag(t) + tail);
      if Encodable(t.val) then r == Ok(tail, Tag(t.tag, ToValue(t.val)))
      else !r.Incomplete? && (r.Ok? ==> r.rest == tail && r.value.tag == t.tag && r.value.val != ToValue(t.val))
    decreases t, 1
  {
    hide Sized, Framed, ValueP;
    var behind := Encoded(t.val) + tail;
    assert EncodedTag(t) + tail == Framed('<', t.tag, '|') + behind;
    ContentIsShorter('<', t.tag, '|');
    SizedOfFramed('<', t.tag, '|', behind);
    RoundTrip(t.val, tail);
  }

  ghost predicate ItemsFaithful(r: Parsed<seq<Value>>, us: seq<View>) {
    if EncodableAll(us) then r == Ok([], ToValues(us))
    else !r.Incomplete? && (r.Ok? ==> r.value != ToValues(us))
  }

  lemma ItemsCons(v: Value, vs: seq<Value>, us: seq<View>)
    requires us != []
    ensures [v] + vs == ToValues(us) <==> v == ToValue(us[0]) && vs == ToValues(us[1..])
  {
    hide ToValue;
    var all := [v] + vs;
    assert all[0] == v && all[1..] == vs;
    assert ToValues(us) == [ToValue(us[0])] + ToValues(us[1..]);
    assert ToValues(us)[1..] == ToValues(us[1..]);
  }

  lemma {:induction false} ItemsRoundTrip(us: seq<View>)
    requires TypedAll(us) && IteratedAll(us)
    requires |EncodedAll(us)| <= USIZE_MAX
    ensures ItemsFaithful(ItemsP(EncodedAll(us)), us)
    decreases us, 1
  {
    if us != [] {
      hide ValueP, Encodable, Typed, Iterated, Encoded, ToValue, ToValues;
      var (s, rest) := (EncodedAll(us), EncodedAll(us[1..]));
      RoundTrip(us[0], rest);
      ItemsRoundTrip(us[1..]);
      NotEmpty(us[0]);
      var first, others := ValueP(s), ItemsP(rest);
      if first.Ok? && others.Ok? {
        ItemsCons(first.value, others.value, us);
      }
    }
  }

  lemma NotEmpty(u: View)
    ensures Encoded(u) != []
  {}

  /** `ps` are the entries of `es` up to some point, but not all of them or not with the right values. */
  ghost predicate Truncated(ps: seq<Tag<Value>>, es: seq<Tag<View>>) {
    && |ps| <= |es|
    && (forall k :: 0 <= k < |ps| ==> ps[k].tag == es[k].tag)
    && (|ps| == |es| ==> exists k :: 0 <= k < |ps| && ps[k].val != ToValue(es[k].val))
  }

  ghost predicate EntriesFaithful(r: Parsed<seq<Tag<Value>>>, es: seq<Tag<View>>) {
    if EncodableTags(es) then r == Ok([], ToTags(es))
    else !r.Incomplete? && (r.Ok? ==> Truncated(r.value, es))
  }

  lemma TruncatedCons(t: Tag<Value>, qs: seq<Tag<Value>>, es: seq<Tag<View>>)
    requires es != [] && t.tag == es[0].tag
    requires Truncated(qs, es[1..]) || (qs == ToTags(es[1..]) && t.val != ToValue(es[0].val))
    ensures Truncated([t] + qs, es)
  {
    hide ToValue;
    var ps := [t] + qs;
    forall k | 0 <= k < |ps| ensures ps[k].tag == es[k].tag {
      if k > 0 {
        assert ps[k] == qs[k - 1] && es[k] == es[1..][k - 1];
      }
    }
    if |ps| == |es| {
      if t.val != ToValue(es[0].val) {
        assert ps[0].val != ToValue(es[0].val);
      } else {
        var k :| 0 <= k < |qs| && qs[k].val != ToValue(es[1..][k].val);
        assert ps[k + 1].val != ToValue(es[k + 1].val);
      }
    }
  }

  lemma {:induction false} EntriesRoundTrip(es: seq<Tag<View>>)
    requires TypedTags(es) && IteratedTags(es)
    requires |EncodedTags(es)| <= USIZE_MAX
    ensures EntriesFaithful(EntriesP(EncodedTags(es)), es)
    decreases es, 1
  {
    if es != [] {
      hide TagP, Truncated, ToTags;
      var (s, rest) := (EncodedTags(es), EncodedTags(es[1..]));
      TagRoundTrip(es[0], rest);
      EntriesRoundTrip(es[1..]);
      assert EncodedTag(es[0]) != [];
      hide Encodable, Typed, Iterated, EncodedTag, ToValue;
      var first, others := TagP(s), EntriesP(rest);
      if first.Ok? && others.Ok? {
        assert EntriesP(s).value == [first.value] + others.value;
        TagsCons(es);
        if first.value.val != ToValue(es[0].val) || others.value != ToTags(es[1..]) {
          TruncatedCons(first.value, others.value, es);
        }
      } else if first.Error? {
        assert Truncated([], es) by { TruncatedNil(es); }
      }
    }
  }

  lemma TagsCons(es: seq<Tag<View>>)
    requires es != []
    ensures ToTags(es) == [Tag(es[0].tag, ToValue(es[0].val))] + ToTags(es[1..])
  {}

  lemma TruncatedNil(es: seq<Tag<View>>)
    requires es != []
    ensures Truncated([], es)
  {}

  /** Inserting tags that are all different loses none of them. */
  lemma {:induction false} InsertedDistinct(ps: seq<Tag<Value>>)
    requires Distinct(ps)
    ensures forall k :: 0 <= k < |ps| ==> ps[k].tag in Inserted(ps) && Inserted(ps)[ps[k].tag] == ps[k].val
    ensures forall t :: t in Inserted(ps) ==> exists k :: 0 <= k < |ps| && ps[k].tag == t
  {
    if ps != [] {
      InsertedDistinct(ps[..|ps| - 1]);
    }
  }

  lemma TruncatedLoses(ps: seq<Tag<Value>>, es: seq<Tag<View>>)
    requires Distinct(es) && Truncated(ps, es)
    ensures Inserted(ps) != Inserted(ToTags(es))
  {
    var all := ToTags(es);
    InsertedDistinct(all);
    InsertedDistinct(ps);
    hide Inserted, ToTags, ToValue;
    if |ps| < |es| {
      var t := all[|ps|].tag;
      assert t in Inserted(all) && t !in Inserted(ps);
    } else {
      var k :| 0 <= k < |ps| && ps[k].val != ToValue(es[k].val);
      assert all[k].tag == ps[k].tag && all[k].val != ps[k].val;
    }
  }

  lemma InsertedEmpty(es: seq<Tag<View>>)
    requires Distinct(es)
    ensures Inserted(ToTags(es)) == map[] <==> es == []
  {
    InsertedDistinct(ToTags(es));
    if es != [] {
      assert ToTags(es)[0].tag in Inserted(ToTags(es));
    }
  }

  /** Outside the domain a value can even vanish without an error: `many0` takes the error
      of its item for the end of the list. */
  lemma MinimumVanishes(tail: Bytes)
    ensures ValueP(Encoded(VList([VInteger(W3, -128)])) + tail) == Ok(tail, List([]))
  {
    var u := VInteger(W3, -128);
    PrintedInteger(W3, -128, []);
    ShortMinimum();
    hide ValueP, Encoded, Framed;
    assert EncodedAll([u]) == Encoded(u) + [];
    PrintedList([u], tail);
    assert Encoded(VList([u])) == Framed('[', EncodedAll([u]), ']') by { ListEncoding([u]); }
  }

  lemma ListEncoding(us: seq<View>)
    ensures Encoded(VList(us)) == Framed('[', EncodedAll(us), ']')
  {}

  lemma ShortMinimum()
    ensures |Encoded(VInteger(W3, -128))| <= 8
  {
    ShowIsShortest(['1' as byte, '2' as byte, '8' as byte]);
  }
}
