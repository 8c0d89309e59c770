// What comes out of the parser can be written again: whatever bytes it was read from
// (leading zeros, repeated tags, the less common number widths), the parsed value lies
// in the domain of the round trip, and none of its encodings is longer than its source.
module Normal {
  import opened Common
  import opened Bytes
  import opened Nom
  import opened Netencode
  import opened Parse
  import opened RoundTrip
  import Streaming

  lemma {:induction false} ShowMonotone(a: nat, b: nat)
    requires a <= b
    ensures |Show(a)| <= |Show(b)|
  {
    if a >= 10 {
      ShowMonotone(a / 10, b / 10);
    }
  }

  lemma FramedMonotone(open: char, a: Bytes, b: Bytes, close: char)
    requires open < (128 as char) && close < (128 as char) && |a| <= |b|
    ensures |Framed(open, a, close)| <= |Framed(open, b, close)|
  {
    ShowMonotone(|a|, |b|);
  }

  /** `e` is one way to write the parsed tag. */
  ghost predicate Writes(e: Tag<View>, t: Tag<Value>) {
    Iterated(e.val) && e.tag == t.tag && ToValue(e.val) == t.val
  }

  ghost predicate TagFits(e: Tag<View>, size: int) {
    ValidUtf8(e.tag) && Typed(e.val) && Encodable(e.val) && |EncodedTag(e)| <= size
  }

  lemma NumberOfLands(t: NumberType, s: Bytes)
    requires NumberOf(t, s).Ok?
    ensures var r := NumberOf(t, s);
      exists u :: Typed(u) && Encodable(u) && (u.VNatural? || u.VInteger?) && ToValue(u) == r.value && |Encoded(u)| + |r.rest| <= |s|
  {
    hide NumberBody, NumberHeader, OptChar, Show;
    var v := NumberOf(t, s).value;
    var u := if t.signed then VInteger(v.w, v.i) else VNatural(v.w, v.n);
    assert Typed(u) && Encodable(u) && ToValue(u) == v;
    if t.signed && v.i == 0 {
      ShowMonotone(0, 0);
    }
    assert |Encoded(u)| + |NumberOf(t, s).rest| <= |s|;
  }

  lemma {:induction false} NumbersLand(ts: seq<NumberType>, s: Bytes)
    requires NumberP(ts, s).Ok?
    ensures var r := NumberP(ts, s);
      exists u :: Typed(u) && Encodable(u) && (u.VNatural? || u.VInteger?) && ToValue(u) == r.value && |Encoded(u)| + |r.rest| <= |s|
  {
    hide NumberOf;
    if NumberOf(ts[0], s).Ok? {
      NumberOfLands(ts[0], s);
    } else {
      NumbersLand(ts[1..], s);
    }
  }

  /** Every way to write a parsed value stays within the round trip's domain and within
      the number of bytes that were consumed. */
  lemma {:induction false} ValueLands(s: Bytes, u: View)
    requires ValueP(s).Ok? && Iterated(u) && ToValue(u) == ValueP(s).value
    ensures Typed(u) && Encodable(u)
    ensures |Encoded(u)| + |ValueP(s).rest| <= |s|
    decreases |s|, 2
  {
    hide TextP, BinaryP, UnitP, BooleanP, NumberP, ListP, RecordP, TagP, ValueP, Show, ShowInt, Framed, Inserted;
    assert s != [] by { NothingParsed(); }
    Streaming.Dispatch(s);
    if s[0] == 't' as byte || s[0] == 'b' as byte || s[0] == 'u' as byte {
      SimpleLands(s, u);
    } else if s[0] == '<' as byte {
      TagLands(s, u.tagged);
    } else if s[0] == '[' as byte {
      ListLands(s, u.items);
    } else if s[0] == '{' as byte {
      RecordLands(s, u.entries);
    } else if BooleanP(s).Ok? {
      BooleanLands(s);
    } else {
      NumbersLand(NUMBER_TYPES, s);
    }
  }

  lemma NothingParsed()
    ensures !ValueP([]).Ok?
  {}

  lemma BooleanLands(s: Bytes)
    requires BooleanP(s).Ok?
    ensures 5 + |BooleanP(s).rest| <= |s|
  {}

  lemma SimpleLands(s: Bytes, u: View)
    ensures TextP(s).Ok? && ToValue(u) == Text(TextP(s).value) ==> Typed(u) && |Encoded(u)| + |TextP(s).rest| <= |s|
    ensures BinaryP(s).Ok? && ToValue(u) == Binary(BinaryP(s).value) ==> |Encoded(u)| + |BinaryP(s).rest| <= |s|
    ensures UnitP(s).Ok? && ToValue(u) == Unit ==> |Encoded(u)| + |UnitP(s).rest| <= |s|
  {
    hide Sized, Framed;
  }

  lemma {:induction false} ListLands(s: Bytes, us: seq<View>)
    requires ListP(s).Ok? && IteratedAll(us) && ToValues(us) == ListP(s).value
    ensures TypedAll(us) && EncodableAll(us) && |Framed('[', EncodedAll(us), ']')| + |ListP(s).rest| <= |s|
    decreases |s|, 1
  {
    hide Sized, Framed, ItemsP;
    var content := Sized('[', ']', s).value;
    ItemsLand(content, us);
    FramedMonotone('[', EncodedAll(us), content, ']');
  }

  lemma {:induction false} RecordLands(s: Bytes, es: seq<Tag<View>>)
    requires RecordP(s).Ok? && Distinct(es) && IteratedTags(es) && Inserted(ToTags(es)) == RecordP(s).value
    ensures TypedTags(es) && EncodableTags(es) && es != []
    ensures |Framed('{', EncodedTags(es), '}')| + |RecordP(s).rest| <= |s|
    decreases |s|, 1
  {
    hide Sized, Framed, EntriesP, Inserted, Distinct, IteratedTags, TypedTags, EncodableTags, EncodedTags, ToTags;
    var content := Sized('{', '}', s).value;
    InsertedEmpty(es);
    WithinInserted(es, EntriesP(content).value);
    EntriesLand(content, es);
    FramedMonotone('{', EncodedTags(es), content, '}');
  }

  lemma WithinInserted(es: seq<Tag<View>>, ps: seq<Tag<Value>>)
    requires Distinct(es) && IteratedTags(es) && Inserted(ToTags(es)) == Inserted(ps)
    ensures Within(es, ps)
  {
    hide Inserted;
    InsertedDistinct(ToTags(es));
    assert forall k :: 0 <= k < |es| ==> ToTags(es)[k].tag == es[k].tag && ToTags(es)[k].tag in Inserted(ToTags(es));
  }

  lemma {:induction false} TagLands(s: Bytes, e: Tag<View>)
    requires TagP(s).Ok? && Writes(e, TagP(s).value)
    ensures TagFits(e, |s| - |TagP(s).rest|)
    decreases |s|, 0
  {
    hide Sized, ValueP, Framed;
    ValueLands(Sized('<', '|', s).rest, e.val);
  }

  lemma {:induction false} ItemsLand(s: Bytes, us: seq<View>)
    requires ItemsP(s).Ok? && IteratedAll(us) && ToValues(us) == ItemsP(s).value
    ensures TypedAll(us) && EncodableAll(us) && |EncodedAll(us)| <= |s|
    decreases |s|, 3
  {
    if us != [] {
      hide ValueP, Typed, Encodable, Iterated, ToValue;
      var Ok(rest, v) := ValueP(s);
      assert ItemsP(s).value == [v] + ItemsP(rest).value;
      ItemsCons(v, ItemsP(rest).value, us);
      ValueLands(s, us[0]);
      ItemsLand(rest, us[1..]);
    }
  }

  /** `es` are entries of the map that `ps` builds, each tag at most once. */
  ghost predicate Within(es: seq<Tag<View>>, ps: seq<Tag<Value>>) {
    && Distinct(es)
    && IteratedTags(es)
    && forall k :: 0 <= k < |es| ==> es[k].tag in Inserted(ps) && Inserted(ps)[es[k].tag] == ToValue(es[k].val)
  }

  lemma {:induction false} InsertedCons(t: Tag<Value>, qs: seq<Tag<Value>>)
    ensures Inserted([t] + qs) == map[t.tag := t.val] + Inserted(qs)
  {
    var ps := [t] + qs;
    if qs != [] {
      var front := qs[..|qs| - 1];
      assert ps[..|ps| - 1] == [t] + front;
      InsertedCons(t, front);
    } else {
      assert ps[..0] == [];
    }
  }

  function Without<A>(es: seq<A>, j: nat): seq<A>
    requires j < |es|
  {
    es[..j] + es[j + 1..]
  }

  lemma {:induction false} TagsWithout(es: seq<Tag<View>>, j: nat)
    requires j < |es|
    ensures |EncodedTags(es)| == |EncodedTags(Without(es, j))| + |EncodedTag(es[j])|
    ensures IteratedTags(es) <==> IteratedTags(Without(es, j)) && Iterated(es[j].val)
    ensures TypedTags(es) <==> TypedTags(Without(es, j)) && ValidUtf8(es[j].tag) && Typed(es[j].val)
    ensures EncodableTags(es) <==> EncodableTags(Without(es, j)) && Encodable(es[j].val)
  {
    hide EncodedTag, Iterated, Typed, Encodable;
    if j == 0 {
      assert Without(es, 0) == es[1..];
    } else {
      assert Without(es, j)[1..] == Without(es[1..], j - 1);
      TagsWithout(es[1..], j - 1);
    }
  }

  lemma WithinWithout(es: seq<Tag<View>>, j: nat, t: Tag<Value>, qs: seq<Tag<Value>>)
    requires j < |es| && es[j].tag == t.tag && Within(es, [t] + qs)
    ensures Within(Without(es, j), qs)
  {
    TagsWithout(es, j);
    InsertedCons(t, qs);
    hide Inserted, ToValue, Iterated;
    var rest := Without(es, j);
    forall k | 0 <= k < |rest|
      ensures rest[k].tag in Inserted(qs) && Inserted(qs)[rest[k].tag] == ToValue(rest[k].val)
    {
      var i := if k < j then k else k + 1;
      assert rest[k] == es[i] && es[i].tag != t.tag;
    }
  }

  lemma WithinTail(es: seq<Tag<View>>, t: Tag<Value>, qs: seq<Tag<Value>>)
    requires Within(es, [t] + qs)
    requires t.tag in Inserted(qs) || forall j :: 0 <= j < |es| ==> es[j].tag != t.tag
    ensures Within(es, qs)
  {
    InsertedCons(t, qs);
    hide Inserted, ToValue, Iterated;
  }

  /** Entries of the map outlive the earlier ones with the same tag, so together they are
      no longer than everything that was read. */
  lemma {:induction false} EntriesLand(s: Bytes, es: seq<Tag<View>>)
    requires EntriesP(s).Ok? && Within(es, EntriesP(s).value)
    ensures TypedTags(es) && EncodableTags(es) && |EncodedTags(es)| <= |s|
    decreases |s|, 3
  {
    if es != [] {
      hide TagP, Typed, Encodable, Iterated, ToValue, Inserted;
      assert EntriesP(s).value != [] by { EmptyInserted(); }
      var Ok(rest, t) := TagP(s);
      var qs := EntriesP(rest).value;
      assert EntriesP(s).value == [t] + qs;
      if j: nat :| j < |es| && es[j].tag == t.tag && t.tag !in Inserted(qs) {
        InsertedCons(t, qs);
        WithinWithout(es, j, t, qs);
        TagsWithout(es, j);
        TagLands(s, es[j]);
        EntriesLand(rest, Without(es, j));
      } else {
        WithinTail(es, t, qs);
        EntriesLand(rest, es);
      }
    }
  }

  lemma EmptyInserted()
    ensures Inserted([]) == map[]
  {}

  /** Normalisation: parse any bytes, write the value in any order, and parsing gives the
      same value back with nothing but the new tail left over. */
  lemma Normalises(s: Bytes, u: View, tail: Bytes)
    requires |s| <= USIZE_MAX && ValueP(s).Ok? && Iterated(u) && ToValue(u) == ValueP(s).value
    ensures ValueP(Encoded(u) + tail) == Ok(tail, ValueP(s).value)
    ensures |Encoded(u)| + |ValueP(s).rest| <= |s|
  {
    hide ValueP;
    ValueLands(s, u);
    RoundTrip.RoundTrip(u, tail);
  }

  // Every value has at least one view, so the statements about all views are about something.

  ghost function AnyView(v: Value): View
    decreases v, 1, 0
  {
    match v
    case Unit => VUnit
    case Boolean(b) => VBoolean(b)
    case Natural(w, n) => VNatural(w, n)
    case Integer(w, i) => VInteger(w, i)
    case Text(s) => VText(s)
    case Binary(s) => VBinary(s)
    case Sum(t) => VSum(Tag(t.tag, AnyView(t.val)))
    case Record(m) => VRecord(AnyEntries(v, m.Keys))
    case List(vs) => VList(seq(|vs|, k requires 0 <= k < |vs| => AnyView(vs[k])))
  }

  ghost function AnyEntries(v: Value, ks: set<Bytes>): seq<Tag<View>>
    requires v.Record? && ks <= v.fields.Keys
    decreases v, 0, |ks|
  {
    if ks == {} then [] else
      [Tag(Pick(ks), AnyView(v.fields[Pick(ks)]))] + AnyEntries(v, ks - {Pick(ks)})
  }

  ghost predicate Viewed(v: Value) {
    Iterated(AnyView(v)) && ToValue(AnyView(v)) == v
  }

  /** `to_u`: some order of the record entries exists for every value. */
  lemma {:induction false} HasView(v: Value)
    ensures Viewed(v)
    decreases v, 2, 0
  {
    if v.Sum? {
      HasView(v.tagged.val);
      SumViewed(v);
    } else if v.Record? {
      EntriesView(v, v.fields.Keys);
      RecordViewed(v);
    } else if v.List? {
      ItemsView(v, v.items);
      ListViewed(v);
    }
  }

  lemma SumViewed(v: Value)
    requires v.Sum? && Viewed(v.tagged.val)
    ensures Viewed(v)
  {}

  lemma RecordViewed(v: Value)
    requires v.Record?
    requires var es := AnyEntries(v, v.fields.Keys);
      Distinct(es) && IteratedTags(es) && Inserted(ToTags(es)) == map k | k in v.fields.Keys :: v.fields[k]
    ensures Viewed(v)
  {
    hide Distinct, IteratedTags, Inserted, AnyEntries, ToTags;
  }

  lemma ListViewed(v: Value)
    requires v.List? && ItemsViewed(v.items)
    ensures Viewed(v)
  {}

  ghost predicate ItemsViewed(vs: seq<Value>) {
    var us := seq(|vs|, k requires 0 <= k < |vs| => AnyView(vs[k]));
    IteratedAll(us) && ToValues(us) == vs
  }

  lemma {:induction false} ItemsView(v: Value, vs: seq<Value>)
    requires v.List? && vs == v.items
    ensures ItemsViewed(vs)
    decreases v, 1, 0
  {
    var us := seq(|vs|, k requires 0 <= k < |vs| => AnyView(vs[k]));
    forall k | 0 <= k < |us| ensures Iterated(us[k]) && ToValue(us[k]) == vs[k] {
      HasView(vs[k]);
    }
    hide Iterated, ToValue, AnyView;
    IteratedEach(us);
    assert ToValues(us) == vs;
  }

  lemma {:induction false} IteratedEach(us: seq<View>)
    requires forall k :: 0 <= k < |us| ==> Iterated(us[k])
    ensures IteratedAll(us)
  {
    if us != [] {
      IteratedEach(us[1..]);
    }
  }

  lemma OneMoreKey(m: map<Bytes, Value>, ks: set<Bytes>, k: Bytes)
    requires k in ks && ks <= m.Keys
    ensures map[k := m[k]] + (map j | j in ks - {k} :: m[j]) == map j | j in ks :: m[j]
  {}

  lemma DistinctCons(es: seq<Tag<View>>)
    requires es != [] && Distinct(es[1..])
    requires forall j :: 0 <= j < |es[1..]| ==> es[1..][j].tag != es[0].tag
    ensures Distinct(es)
  {
    forall i, j | 0 <= i < j < |es| ensures es[i].tag != es[j].tag {
      assert es[j] == es[1..][j - 1];
      if i > 0 {
        assert es[i] == es[1..][i - 1];
      }
    }
  }

  lemma {:induction false} EntriesView(v: Value, ks: set<Bytes>)
    requires v.Record? && ks <= v.fields.Keys
    ensures var es := AnyEntries(v, ks);
      && Distinct(es) && IteratedTags(es)
      && (forall j :: 0 <= j < |es| ==> es[j].tag in ks)
      && Inserted(ToTags(es)) == map k | k in ks :: v.fields[k]
    decreases v, 1, |ks|
  {
    if ks == {} {
      EmptyInserted();
    } else {
      var k := Pick(ks);
      HasView(v.fields[k]);
      EntriesView(v, ks - {k});
      hide Iterated, ToValue, AnyView, Inserted;
      var es, rest := AnyEntries(v, ks), AnyEntries(v, ks - {k});
      TagsCons(es);
      assert es[1..] == rest;
      InsertedCons(Tag(k, v.fields[k]), ToTags(rest));
      hide ToTags, AnyEntries;
      DistinctCons(es);
      OneMoreKey(v.fields, ks, k);
    }
  }
}
