// What the parser makes of text, tags, lists and records, told by their bytes: lengths of any
// digits, any closing byte, and anything behind the items that is no further item.
module Frames {
  import opened Bytes
  import opened Nom
  import opened Netencode
  import opened Parse
  import opened Forms
  import Streaming
  import RoundTrip

  /** A length of any digits, the colon, as many bytes, and whatever byte is behind them. */
  lemma SizedIs(begin: char, end: char, ds: Bytes, colon: byte, content: Bytes, c: byte, tail: Bytes)
    requires begin < (128 as char) && end < (128 as char) && Digits(ds) && !('0' as byte <= colon <= '9' as byte)
    requires Decimal(ds) == |content| || Decimal(ds) > 18446744073709551615 || colon != ':' as byte
    ensures Sized(begin, end, [begin as byte] + (ds + ([colon] + (content + ([c] + tail)))))
         == if Decimal(ds) <= 18446744073709551615 && colon == ':' as byte && c == end as byte then Ok(tail, content)
            else Error
  {
    hide Number, Decimal;
    var behind := content + ([c] + tail);
    var s1 := ds + ([colon] + behind);
    var s := [begin as byte] + s1;
    assert s[1..] == s1;
    NumberIs(USIZE_MAX, ds, [colon] + behind);
    assert ([colon] + behind)[1..] == behind;
    assert behind[..|content|] == content && behind[|content|..] == [c] + tail;
    assert ([c] + tail)[1..] == tail;
  }

  /** What is framed like this is `what`, if the closing byte is right. */
  function FramedBy(begin: char, ds: Bytes, content: Bytes, c: byte, tail: Bytes): Bytes
    requires begin < (128 as char)
  {
    [begin as byte] + (ds + ([':' as byte] + (content + ([c] + tail))))
  }

  ghost predicate Measures(ds: Bytes, content: Bytes) {
    Digits(ds) && Decimal(ds) == |content| && |content| <= 18446744073709551615
  }

  lemma Framing(begin: char, end: char, ds: Bytes, content: Bytes, c: byte, tail: Bytes)
    requires begin < (128 as char) && end < (128 as char) && Measures(ds, content)
    ensures var s := FramedBy(begin, ds, content, c, tail);
      s != [] && s[0] == begin as byte && Sized(begin, end, s) == if c == end as byte then Ok(tail, content) else Error
  {
    hide Sized, Decimal;
    SizedIs(begin, end, ds, ':' as byte, content, c, tail);
  }

  /** Text that is not UTF-8 ends all parsing; in a binary everything goes. */
  lemma TextIsRead(ds: Bytes, content: Bytes, c: byte, tail: Bytes)
    requires Measures(ds, content)
    ensures ValueP(FramedBy('t', ds, content, c, tail))
         == if c != ',' as byte then Error else if ValidUtf8(content) then Ok(tail, Text(content)) else Failure
    ensures ValueP(FramedBy('b', ds, content, c, tail)) == if c != ',' as byte then Error else Ok(tail, Binary(content))
  {
    Framing('t', ',', ds, content, c, tail);
    Framing('b', ',', ds, content, c, tail);
    Streaming.Dispatch(FramedBy('t', ds, content, c, tail));
    Streaming.Dispatch(FramedBy('b', ds, content, c, tail));
    hide Sized, ValueP, Decimal, Digits, ValidUtf8;
  }

  lemma UnitIsRead(c: byte, tail: Bytes)
    ensures ValueP(['u' as byte, c] + tail) == if c == ',' as byte then Ok(tail, Unit) else Error
  {
    var s := ['u' as byte, c] + tail;
    assert s[0] == 'u' as byte && s[1] == c && s[2..] == tail;
    Streaming.Dispatch(s);
    hide ValueP;
  }

  /** A tag that is not UTF-8 ends all parsing too, once its value has been parsed. */
  lemma TagIsRead(ds: Bytes, tag: Bytes, c: byte, behind: Bytes)
    requires Measures(ds, tag)
    ensures ValueP(FramedBy('<', ds, tag, c, behind)) ==
      var r := ValueP(behind);
      if c != '|' as byte then Error
      else if !r.Ok? then r.PropagateFailure()
      else if ValidUtf8(tag) then Ok(r.rest, Sum(Tag(tag, r.value)))
      else Failure
  {
    var s := FramedBy('<', ds, tag, c, behind);
    hide *;
    Framing('<', '|', ds, tag, c, behind);
    TagParts(s, tag, c, behind);
    TagOf(s);
  }

  lemma TagOf(s: Bytes)
    requires s != [] && s[0] == '<' as byte
    ensures ValueP(s) ==
      var r := TagP(s);
      if r.Ok? then Ok(r.rest, Sum(r.value)) else r.PropagateFailure()
  {
    hide ValueP, TagP;
    Streaming.Dispatch(s);
  }

  lemma TagParts(s: Bytes, tag: Bytes, c: byte, behind: Bytes)
    requires Sized('<', '|', s) == if c == '|' as byte then Ok(behind, tag) else Error
    ensures TagP(s) ==
      var r := ValueP(behind);
      if c != '|' as byte then Error
      else if !r.Ok? then r.PropagateFailure()
      else if ValidUtf8(tag) then Ok(r.rest, Tag(tag, r.value))
      else Failure
  {
    hide Sized, ValueP, ValidUtf8;
  }

  // ---- Lists and records

  /** What is in a list behind items decides: nothing, or something that no value begins with, is
      dropped; what is incomplete makes the list incomplete, and a failure ends all. */
  lemma {:induction false} ItemsThen(us: seq<View>, more: Bytes)
    requires TypedAll(us) && IteratedAll(us) && EncodableAll(us) && |EncodedAll(us)| <= USIZE_MAX
    requires more == [] || !ValueP(more).Ok?
    ensures ItemsP(EncodedAll(us) + more) ==
      if more == [] || ValueP(more).Error? then Ok(more, ToValues(us))
      else if ValueP(more).Incomplete? then Incomplete
      else Failure
  {
    if us == [] {
      assert EncodedAll(us) + more == more;
    } else {
      var rest := EncodedAll(us[1..]) + more;
      EncodedFirst(us, more);
      hide ValueP, Encoded, Encodable, Typed, Iterated, ToValue, ToValues, EncodedAll, ItemsP;
      RoundTrip.RoundTrip(us[0], rest);
      ItemsThen(us[1..], more);
      ItemsStep(Encoded(us[0]) + rest, rest, ToValue(us[0]));
    }
  }

  lemma EncodedFirst(us: seq<View>, more: Bytes)
    requires us != [] && |EncodedAll(us)| <= USIZE_MAX
    ensures EncodedAll(us) + more == Encoded(us[0]) + (EncodedAll(us[1..]) + more)
    ensures |Encoded(us[0])| <= USIZE_MAX && |EncodedAll(us[1..])| <= USIZE_MAX
    ensures ToValues(us) == [ToValue(us[0])] + ToValues(us[1..])
  {
    hide Encoded, ToValue;
    Associate(Encoded(us[0]), EncodedAll(us[1..]), more);
  }

  lemma Associate(a: Bytes, b: Bytes, c: Bytes)
    ensures (a + b) + c == a + (b + c) && |a + b| == |a| + |b|
  {}

  lemma ItemsStep(s: Bytes, rest: Bytes, v: Value)
    requires ValueP(s) == Ok(rest, v)
    ensures ItemsP(s) ==
      var others := ItemsP(rest);
      if others.Ok? then Ok(others.rest, [v] + others.value) else others
  {
    hide ValueP;
  }

  lemma ListParts(s: Bytes, content: Bytes, c: byte, tail: Bytes)
    requires Sized('[', ']', s) == if c == ']' as byte then Ok(tail, content) else Error
    ensures ListP(s) ==
      var r := ItemsP(content);
      if c != ']' as byte then Error else if !r.Ok? then r.PropagateFailure() else Ok(tail, r.value)
  {
    hide Sized, ItemsP;
  }

  lemma ListOf(s: Bytes)
    requires s != [] && s[0] == '[' as byte
    ensures ValueP(s) ==
      var r := ListP(s);
      if r.Ok? then Ok(r.rest, List(r.value)) else r.PropagateFailure()
  {
    hide ValueP, ListP;
    Streaming.Dispatch(s);
  }

  /** Main result: a list of written values, with anything behind them that is no further value. */
  lemma ListIsRead(ds: Bytes, us: seq<View>, more: Bytes, c: byte, tail: Bytes)
    requires TypedAll(us) && IteratedAll(us) && EncodableAll(us) && (more == [] || !ValueP(more).Ok?)
    requires Measures(ds, EncodedAll(us) + more)
    ensures ValueP(FramedBy('[', ds, EncodedAll(us) + more, c, tail)) ==
      if c != ']' as byte then Error
      else if more == [] || ValueP(more).Error? then Ok(tail, List(ToValues(us)))
      else if ValueP(more).Incomplete? then Incomplete
      else Failure
  {
    ItemsFit(ds, us, more);
    hide *;
    ItemsThen(us, more);
    ListFramed(ds, EncodedAll(us) + more, c, tail);
    ListOfItems(ItemsP(EncodedAll(us) + more), ToValues(us), tail);
  }

  lemma ItemsFit(ds: Bytes, us: seq<View>, more: Bytes)
    requires Measures(ds, EncodedAll(us) + more)
    ensures |EncodedAll(us)| <= USIZE_MAX
  {}

  function ListFrom(r: Parsed<seq<Value>>, tail: Bytes): Parsed<Value> {
    if !r.Ok? then r.PropagateFailure() else Ok(tail, List(r.value))
  }

  lemma ListOfItems(r: Parsed<seq<Value>>, vs: seq<Value>, tail: Bytes)
    requires !r.Ok? || r.value == vs
    ensures ListFrom(r, tail) == if !r.Ok? then r.PropagateFailure() else Ok(tail, List(vs))
  {}

  lemma ListWhole(s: Bytes, content: Bytes, c: byte, tail: Bytes)
    requires s != [] && s[0] == '[' as byte
    requires Sized('[', ']', s) == if c == ']' as byte then Ok(tail, content) else Error
    ensures ValueP(s) == if c != ']' as byte then Error else ListFrom(ItemsP(content), tail)
  {
    hide Sized, ListP, ValueP, ItemsP;
    ListParts(s, content, c, tail);
    ListOf(s);
  }

  lemma ListFramed(ds: Bytes, content: Bytes, c: byte, tail: Bytes)
    requires Measures(ds, content)
    ensures ValueP(FramedBy('[', ds, content, c, tail)) == if c != ']' as byte then Error else ListFrom(ItemsP(content), tail)
  {
    var s := FramedBy('[', ds, content, c, tail);
    hide *;
    Framing('[', ']', ds, content, c, tail);
    ListWhole(s, content, c, tail);
  }

  lemma {:induction false} EntriesThen(es: seq<Tag<View>>, more: Bytes)
    requires TypedTags(es) && IteratedTags(es) && EncodableTags(es) && |EncodedTags(es)| <= USIZE_MAX
    requires more == [] || !TagP(more).Ok?
    ensures EntriesP(EncodedTags(es) + more) ==
      if more == [] || TagP(more).Error? then Ok(more, ToTags(es))
      else if TagP(more).Incomplete? then Incomplete
      else Failure
  {
    if es == [] {
      assert EncodedTags(es) + more == more;
    } else {
      var rest := EncodedTags(es[1..]) + more;
      TagFirst(es, more);
      hide TagP, EncodedTag, Encodable, Typed, Iterated, ToValue, ToTags, EncodedTags, EntriesP;
      RoundTrip.TagRoundTrip(es[0], rest);
      EntriesThen(es[1..], more);
      EntriesStep(EncodedTag(es[0]) + rest, rest, Tag(es[0].tag, ToValue(es[0].val)));
    }
  }

  lemma TagFirst(es: seq<Tag<View>>, more: Bytes)
    requires es != [] && |EncodedTags(es)| <= USIZE_MAX
    ensures EncodedTags(es) + more == EncodedTag(es[0]) + (EncodedTags(es[1..]) + more)
    ensures |EncodedTag(es[0])| <= USIZE_MAX && |EncodedTags(es[1..])| <= USIZE_MAX
    ensures ToTags(es) == [Tag(es[0].tag, ToValue(es[0].val))] + ToTags(es[1..])
  {
    hide EncodedTag, ToValue;
    Associate(EncodedTag(es[0]), EncodedTags(es[1..]), more);
  }

  lemma EntriesStep(s: Bytes, rest: Bytes, t: Tag<Value>)
    requires TagP(s) == Ok(rest, t)
    ensures EntriesP(s) ==
      var others := EntriesP(rest);
      if others.Ok? then Ok(others.rest, [t] + others.value) else others
  {
    hide TagP;
  }

  /** Of entries with one tag the last one is kept, and every tag is. */
  ghost predicate LastOnes(es: seq<Tag<View>>, m: map<Bytes, Value>) {
    && (forall t :: t in m ==> exists k :: 0 <= k < |es| && es[k].tag == t)
    && (forall k :: 0 <= k < |es| ==> es[k].tag in m)
    && (forall k :: 0 <= k < |es| && (forall j :: k < j < |es| ==> es[j].tag != es[k].tag)
          ==> es[k].tag in m && m[es[k].tag] == ToValue(es[k].val))
  }

  lemma {:induction false} InsertedLast(es: seq<Tag<View>>)
    ensures LastOnes(es, Inserted(ToTags(es)))
  {
    if es != [] {
      var n := |es| - 1;
      InsertedLast(es[..n]);
      InsertedSnoc(es);
      hide *;
      LastOnesSnoc(es, Inserted(ToTags(es[..n])));
    }
  }

  lemma InsertedSnoc(es: seq<Tag<View>>)
    requires es != []
    ensures var n := |es| - 1; Inserted(ToTags(es)) == Inserted(ToTags(es[..n]))[es[n].tag := ToValue(es[n].val)]
  {
    FrontTags(es);
    hide ToTags, ToValue;
  }

  lemma LastOnesSnoc(es: seq<Tag<View>>, m: map<Bytes, Value>)
    requires es != [] && LastOnes(es[..|es| - 1], m)
    ensures LastOnes(es, m[es[|es| - 1].tag := ToValue(es[|es| - 1].val)])
  {
    hide ToValue;
    var (n, front) := (|es| - 1, es[..|es| - 1]);
    var m' := m[es[n].tag := ToValue(es[n].val)];
    forall k | 0 <= k < |es| && (forall j :: k < j < |es| ==> es[j].tag != es[k].tag)
      ensures es[k].tag in m' && m'[es[k].tag] == ToValue(es[k].val)
    {
      if k < n {
        assert es[n].tag != es[k].tag && front[k] == es[k];
        assert forall j :: k < j < n ==> front[j] == es[j];
      }
    }
    forall t | t in m' ensures exists k :: 0 <= k < |es| && es[k].tag == t {
      if t in m {
        var k :| 0 <= k < |front| && front[k].tag == t;
        assert es[k].tag == t;
      } else {
        assert es[n].tag == t;
      }
    }
    forall k | 0 <= k < |es| ensures es[k].tag in m' {
      if k < n {
        assert front[k] == es[k];
      }
    }
  }

  lemma FrontTags(es: seq<Tag<View>>)
    requires es != []
    ensures ToTags(es)[..|es| - 1] == ToTags(es[..|es| - 1])
  {
    hide ToValue;
  }

  lemma RecordParts(s: Bytes, content: Bytes, c: byte, tail: Bytes)
    requires Sized('{', '}', s) == if c == '}' as byte then Ok(tail, content) else Error
    ensures RecordP(s) ==
      var r := EntriesP(content);
      if c != '}' as byte then Error
      else if !r.Ok? then r.PropagateFailure()
      else if Inserted(r.value) == map[] then Failure
      else Ok(tail, Inserted(r.value))
  {
    hide Sized, EntriesP, Inserted;
  }

  lemma RecordOf(s: Bytes)
    requires s != [] && s[0] == '{' as byte
    ensures ValueP(s) ==
      var r := RecordP(s);
      if r.Ok? then Ok(r.rest, Record(r.value)) else r.PropagateFailure()
  {
    hide ValueP, RecordP;
    Streaming.Dispatch(s);
  }

  /** What a record with these entries is. */
  function RecordFrom(r: Parsed<seq<Tag<Value>>>, tail: Bytes): Parsed<Value> {
    if !r.Ok? then r.PropagateFailure()
    else if Inserted(r.value) == map[] then Failure
    else Ok(tail, Record(Inserted(r.value)))
  }

  lemma RecordFramed(ds: Bytes, content: Bytes, c: byte, tail: Bytes)
    requires Measures(ds, content)
    ensures ValueP(FramedBy('{', ds, content, c, tail))
         == if c != '}' as byte then Error else RecordFrom(EntriesP(content), tail)
  {
    var s := FramedBy('{', ds, content, c, tail);
    Framing('{', '}', ds, content, c, tail);
    hide FramedBy, Sized, RecordP, ValueP, EntriesP, Inserted, Measures;
    RecordParts(s, content, c, tail);
    RecordOf(s);
  }

  lemma RecordOfTags(r: Parsed<seq<Tag<Value>>>, es: seq<Tag<View>>, tail: Bytes)
    requires !r.Ok? || r.value == ToTags(es)
    ensures RecordFrom(r, tail)
         == if !r.Ok? then r.PropagateFailure()
            else if Inserted(ToTags(es)) == map[] then Failure
            else Ok(tail, Record(Inserted(ToTags(es))))
  {
    hide ToTags, Inserted;
  }

  lemma TagsInserted(es: seq<Tag<View>>)
    ensures LastOnes(es, Inserted(ToTags(es)))
    ensures Inserted(ToTags(es)) == map[] <==> es == []
  {
    InsertedLast(es);
    NoTags();
    if es != [] {
      SomeTag(es);
    }
    hide *;
  }

  lemma NoTags()
    ensures Inserted(ToTags([])) == map[]
  {}

  /** Main result: a record of written entries, whose tags may be repeated; without any entry it
      ends all parsing. */
  lemma RecordIsRead(ds: Bytes, es: seq<Tag<View>>, more: Bytes, c: byte, tail: Bytes)
    requires TypedTags(es) && IteratedTags(es) && EncodableTags(es) && (more == [] || !TagP(more).Ok?)
    requires Measures(ds, EncodedTags(es) + more)
    ensures var r := ValueP(FramedBy('{', ds, EncodedTags(es) + more, c, tail));
      if c != '}' as byte then r == Error
      else if more == [] || TagP(more).Error? then
        if es == [] then r == Failure
        else r.Ok? && r.rest == tail && r.value.Record? && LastOnes(es, r.value.fields)
      else r == if TagP(more).Incomplete? then Incomplete else Failure
  {
    EntriesFit(ds, es, more);
    hide *;
    TagsInserted(es);
    EntriesThen(es, more);
    RecordFramed(ds, EncodedTags(es) + more, c, tail);
    RecordOfTags(EntriesP(EncodedTags(es) + more), es, tail);
  }

  lemma EntriesFit(ds: Bytes, es: seq<Tag<View>>, more: Bytes)
    requires Measures(ds, EncodedTags(es) + more)
    ensures |EncodedTags(es)| <= USIZE_MAX
  {}

  lemma SomeTag(es: seq<Tag<View>>)
    requires es != [] && LastOnes(es, Inserted(ToTags(es)))
    ensures Inserted(ToTags(es)) != map[]
  {
    hide ToTags, Inserted;
    assert es[0].tag in Inserted(ToTags(es));
  }
}
