// Values of netencode and how they are written.
module Netencode {
  import opened Bytes

  /** `Tag<S, A>` */
  datatype Tag<+A> = Tag(tag: Bytes, val: A)

  /** The widths with a value of their own: 3, 6 and 7 stand for 2^3, 2^6 and 2^7 bits. */
  datatype Width = W3 | W6 | W7 {
    function Exponent(): byte {
      match this
      case W3 => '3' as byte
      case W6 => '6' as byte
      case W7 => '7' as byte
    }

    function NaturalMax(): nat {
      match this
      case W3 => 0xFF
      case W6 => 0xFFFF_FFFF_FFFF_FFFF
      case W7 => 0xFFFF_FFFF_FFFF_FFFF_FFFF_FFFF_FFFF_FFFF
    }

    /** The largest signed number; the smallest is `-1 - IntegerMax()`. */
    function IntegerMax(): nat {
      match this
      case W3 => 0x7F
      case W6 => 0x7FFF_FFFF_FFFF_FFFF
      case W7 => 0x7FFF_FFFF_FFFF_FFFF_FFFF_FFFF_FFFF_FFFF
    }
  }

  /** The owned values, `T`. */
  datatype Value =
    | Unit
    | Boolean(b: bool)
    | Natural(w: Width, n: nat)
    | Integer(w: Width, i: int)
    | Text(text: Bytes)
    | Binary(binary: Bytes)
    | Sum(tagged: Tag<Value>)
    | Record(fields: map<Bytes, Value>)
    | List(items: seq<Value>)

  /** The values as `encode` walks over them, `U`: every hash map is laid out in the
      order in which its iterator happens to yield the entries. */
  datatype View =
    | VUnit
    | VBoolean(b: bool)
    | VNatural(w: Width, n: nat)
    | VInteger(w: Width, i: int)
    | VText(text: Bytes)
    | VBinary(binary: Bytes)
    | VSum(tagged: Tag<View>)
    | VRecord(entries: seq<Tag<View>>)
    | VList(items: seq<View>)

  /** A hash map after inserting tags one by one: the last of several equal ones wins. */
  function Inserted(ps: seq<Tag<Value>>): map<Bytes, Value> {
    if ps == [] then map[]
    else Inserted(ps[..|ps| - 1])[ps[|ps| - 1].tag := ps[|ps| - 1].val]
  }

  /** `to_t` */
  function ToValue(u: View): Value {
    match u
    case VUnit => Unit
    case VBoolean(b) => Boolean(b)
    case VNatural(w, n) => Natural(w, n)
    case VInteger(w, i) => Integer(w, i)
    case VText(s) => Text(s)
    case VBinary(s) => Binary(s)
    case VSum(t) => Sum(Tag(t.tag, ToValue(t.val)))
    case VRecord(es) => Record(Inserted(ToTags(es)))
    case VList(us) => List(ToValues(us))
  }

  function ToValues(us: seq<View>): (vs: seq<Value>)
    ensures |vs| == |us|
    ensures forall k :: 0 <= k < |us| ==> vs[k] == ToValue(us[k])
  {
    if us == [] then [] else [ToValue(us[0])] + ToValues(us[1..])
  }

  function ToTags(es: seq<Tag<View>>): (ps: seq<Tag<Value>>)
    ensures |ps| == |es|
    ensures forall k :: 0 <= k < |es| ==> ps[k] == Tag(es[k].tag, ToValue(es[k].val))
  {
    if es == [] then [] else [Tag(es[0].tag, ToValue(es[0].val))] + ToTags(es[1..])
  }

  predicate Distinct<A>(es: seq<Tag<A>>) {
    forall i, j :: 0 <= i < j < |es| ==> es[i].tag != es[j].tag
  }

  /** The record entries of `u` come from hash maps: at every depth, tags are distinct. */
  ghost predicate Iterated(u: View) {
    match u
    case VSum(t) => Iterated(t.val)
    case VRecord(es) => Distinct(es) && IteratedTags(es)
    case VList(us) => IteratedAll(us)
    case _ => true
  }

  ghost predicate IteratedTags(es: seq<Tag<View>>) {
    es != [] ==> Iterated(es[0].val) && IteratedTags(es[1..])
  }

  ghost predicate IteratedAll(us: seq<View>) {
    us != [] ==> Iterated(us[0]) && IteratedAll(us[1..])
  }

  /** What Rust's types say about `u`: integer ranges, and text and tags are UTF-8. */
  ghost predicate Typed(u: View) {
    match u
    case VNatural(w, n) => n <= w.NaturalMax()
    case VInteger(w, i) => -1 - w.IntegerMax() <= i <= w.IntegerMax()
    case VText(s) => ValidUtf8(s)
    case VSum(t) => ValidUtf8(t.tag) && Typed(t.val)
    case VRecord(es) => TypedTags(es)
    case VList(us) => TypedAll(us)
    case _ => true
  }

  ghost predicate TypedTags(es: seq<Tag<View>>) {
    es != [] ==> ValidUtf8(es[0].tag) && Typed(es[0].val) && TypedTags(es[1..])
  }

  ghost predicate TypedAll(us: seq<View>) {
    us != [] ==> Typed(us[0]) && TypedAll(us[1..])
  }

  /** No empty record and no smallest signed number, at any depth. */
  ghost predicate Encodable(u: View) {
    match u
    case VInteger(w, i) => 0 - w.IntegerMax() <= i
    case VSum(t) => Encodable(t.val)
    case VRecord(es) => es != [] && EncodableTags(es)
    case VList(us) => EncodableAll(us)
    case _ => true
  }

  ghost predicate EncodableTags(es: seq<Tag<View>>) {
    es != [] ==> Encodable(es[0].val) && EncodableTags(es[1..])
  }

  ghost predicate EncodableAll(us: seq<View>) {
    us != [] ==> Encodable(us[0]) && EncodableAll(us[1..])
  }

  function Framed(open: char, body: Bytes, close: char): Bytes
    requires open < (128 as char) && close < (128 as char)
  {
    [open as byte] + Show(|body|) + [':' as byte] + body + [close as byte]
  }

  /** The bytes of a value, given the order in which record entries are written. */
  function Encoded(u: View): Bytes {
    match u
    case VUnit => ['u' as byte, ',' as byte]
    case VBoolean(b) =>
      ['n' as byte, '1' as byte, ':' as byte, if b then '1' as byte else '0' as byte, ',' as byte]
    case VNatural(w, n) => ['n' as byte, w.Exponent(), ':' as byte] + Show(n) + [',' as byte]
    case VInteger(w, i) => ['i' as byte, w.Exponent(), ':' as byte] + ShowInt(i) + [',' as byte]
    case VText(s) => Framed('t', s, ',')
    case VBinary(s) => Framed('b', s, ',')
    case VSum(t) => EncodedTag(t)
    case VRecord(es) => Framed('{', EncodedTags(es), '}')
    case VList(us) => Framed('[', EncodedAll(us), ']')
  }

  function ShowInt(i: int): Bytes {
    if i < 0 then ['-' as byte] + Show(-i) else Show(i)
  }

  function EncodedTag(t: Tag<View>): Bytes {
    Framed('<', t.tag, '|') + Encoded(t.val)
  }

  function EncodedTags(es: seq<Tag<View>>): Bytes {
    if es == [] then [] else EncodedTag(es[0]) + EncodedTags(es[1..])
  }

  function EncodedAll(us: seq<View>): Bytes {
    if us == [] then [] else Encoded(us[0]) + EncodedAll(us[1..])
  }

  lemma EncodedTagsSnoc(es: seq<Tag<View>>, e: Tag<View>)
    ensures EncodedTags(es + [e]) == EncodedTags(es) + EncodedTag(e)
  {
    if es == [] {
      assert es + [e] == [e];
    } else {
      assert (es + [e])[1..] == es[1..] + [e];
      EncodedTagsSnoc(es[1..], e);
    }
  }

  lemma EncodedAllSnoc(us: seq<View>, u: View)
    ensures EncodedAll(us + [u]) == EncodedAll(us) + Encoded(u)
  {
    if us == [] {
      assert us + [u] == [u];
    } else {
      assert (us + [u])[1..] == us[1..] + [u];
      EncodedAllSnoc(us[1..], u);
    }
  }

  /** An in-memory `Write` sink (`Cursor<Vec<u8>>`): writing appends and cannot fail. */
  class Sink {
    var data: Bytes

    constructor ()
      ensures data == []
    {
      data := [];
    }

    method Write(bs: Bytes)
      modifies this
      ensures data == old(data) + bs
    {
      data := data + bs;
    }
  }

  /** `encode_tag` */
  method EncodeTag(w: Sink, t: Tag<View>)
    modifies w
    ensures w.data == old(w.data) + EncodedTag(t)
    decreases t, 1
  {
    hide Show, Encoded;
    w.Write(['<' as byte] + Show(|t.tag|) + [':' as byte] + t.tag + ['|' as byte]);
    Encode(w, t.val);
  }

  /** `encode`: lists and records are written to a sink of their own first, because
      their length goes in front. */
  method Encode(w: Sink, u: View)
    modifies w
    ensures w.data == old(w.data) + Encoded(u)
    decreases u, 0
  {
    hide Show, ShowInt, EncodedTags, EncodedAll;
    match u
    case VUnit =>
      w.Write(['u' as byte, ',' as byte]);
    case VBoolean(b) =>
      if b {
        w.Write(['n' as byte, '1' as byte, ':' as byte, '1' as byte, ',' as byte]);
      } else {
        w.Write(['n' as byte, '1' as byte, ':' as byte, '0' as byte, ',' as byte]);
      }
    case VNatural(width, n) =>
      w.Write(['n' as byte, width.Exponent(), ':' as byte] + Show(n) + [',' as byte]);
    case VInteger(width, i) =>
      w.Write(['i' as byte, width.Exponent(), ':' as byte] + ShowInt(i) + [',' as byte]);
    case VText(s) =>
      w.Write(['t' as byte] + Show(|s|) + [':' as byte]);
      w.Write(s);
      w.Write([',' as byte]);
    case VBinary(s) =>
      w.Write(['b' as byte] + Show(|s|) + [':' as byte]);
      w.Write(s);
      w.Write([',' as byte]);
    case VSum(t) =>
      EncodeTag(w, t);
    case VRecord(es) =>
      EncodeRecord(w, es);
    case VList(us) =>
      EncodeList(w, us);
  }

  method EncodeRecord(w: Sink, es: seq<Tag<View>>)
    modifies w
    ensures w.data == old(w.data) + Framed('{', EncodedTags(es), '}')
    decreases es, 0
  {
    hide Show, EncodedTags, EncodedTag;
    EncodedNone();
    var c := new Sink();
    for k := 0 to |es|
      invariant c.data == EncodedTags(es[..k]) && w.data == old(w.data)
    {
      EncodeTag(c, es[k]);
      EncodedTagsSnoc(es[..k], es[k]);
      assert es[..k + 1] == es[..k] + [es[k]];
    }
    assert es[..|es|] == es;
    w.Write(['{' as byte] + Show(|c.data|) + [':' as byte]);
    w.Write(c.data);
    w.Write(['}' as byte]);
  }

  method EncodeList(w: Sink, us: seq<View>)
    modifies w
    ensures w.data == old(w.data) + Framed('[', EncodedAll(us), ']')
    decreases us, 0
  {
    hide Show, EncodedAll, Encoded;
    EncodedNone();
    var c := new Sink();
    for k := 0 to |us|
      invariant c.data == EncodedAll(us[..k]) && w.data == old(w.data)
    {
      Encode(c, us[k]);
      EncodedAllSnoc(us[..k], us[k]);
      assert us[..k + 1] == us[..k] + [us[k]];
    }
    assert us[..|us|] == us;
    w.Write(['[' as byte] + Show(|c.data|) + [':' as byte]);
    w.Write(c.data);
    w.Write([']' as byte]);
  }

  lemma EncodedNone()
    ensures EncodedTags([]) == [] && EncodedAll([]) == []
  {}
}
