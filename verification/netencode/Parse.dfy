// The parsers of netencode: module `parse`, in the form that builds owned values.
module Parse {
  import opened Bytes
  import opened Nom
  import opened Netencode

  /** `sized(begin, end)`: `<begin><length>:<content><end>`, yielding the content. */
  function Sized(begin: char, end: char, s: Bytes): (r: Parsed<Bytes>)
    requires begin < (128 as char) && end < (128 as char)
    ensures r.Ok? ==> |r.value| < |s| && |r.rest| < |s|
    ensures r.Ok? ==> |Framed(begin, r.value, end)| + |r.rest| <= |s|
  {
    var (s1, _) :- Char(begin as byte, s);
    var (s2, len) :- Number(USIZE_MAX, s1);
    var (s3, _) :- Char(':' as byte, s2);
    var (s4, content) :- Take(len, s3);
    var (s5, _) :- Char(end as byte, s4);
    Ok(s5, content)
  }

  /** `text_g` */
  function TextP(s: Bytes): (r: Parsed<Bytes>)
    ensures r.Ok? ==> |r.rest| < |s|
  {
    var (s1, content) :- Sized('t', ',', s);
    if ValidUtf8(content) then Ok(s1, content) else Failure
  }

  /** `binary_g` */
  function BinaryP(s: Bytes): (r: Parsed<Bytes>)
    ensures r.Ok? ==> |r.rest| < |s|
  {
    Sized('b', ',', s)
  }

  /** `unit_t` */
  function UnitP(s: Bytes): (r: Parsed<Bytes>)
    ensures r.Ok? ==> |r.rest| < |s|
  {
    Literal(['u' as byte, ',' as byte], s)
  }

  /** `bool_t` */
  function BooleanP(s: Bytes): (r: Parsed<bool>)
    ensures r.Ok? ==> |r.rest| < |s|
  {
    Literal(['n' as byte, '1' as byte, ':' as byte, '0' as byte, ',' as byte], s).Or(_ => false,
    Literal(['n' as byte, '1' as byte, ':' as byte, '1' as byte, ',' as byte], s).Or(_ => true,
    Error))
  }

  /** The type tag and the colon in front of a number. */
  function NumberHeader(letter: byte, exponent: byte, s: Bytes): (r: Parsed<byte>)
    ensures r.Ok? ==> |s| == 3 + |r.rest|
  {
    var (s1, _) :- Literal([letter, exponent], s);
    Char(':' as byte, s1)
  }

  /** The digits of a number and the comma behind them. */
  function NumberBody(max: nat, s: Bytes): (r: Parsed<nat>)
    ensures r.Ok? ==> r.value <= max && |Show(r.value)| + 1 + |r.rest| <= |s|
  {
    var (s1, n) :- Number(max, s);
    var (s2, _) :- Char(',' as byte, s1);
    Ok(s2, n)
  }

  /** `uint_t::<I>("n<exponent>")`, where `w` gives the range of `I`. */
  function NaturalP(exponent: byte, w: Width, s: Bytes): (r: Parsed<Value>)
    ensures r.Ok? ==> |r.rest| < |s|
  {
    var (s1, _) :- NumberHeader('n' as byte, exponent, s);
    var (s2, n) :- NumberBody(w.NaturalMax(), s1);
    Ok(s2, Natural(w, n))
  }

  /** `int_t::<I>("i<exponent>")`: the digits are read as an `I` before the sign is applied. */
  function IntegerP(exponent: byte, w: Width, s: Bytes): (r: Parsed<Value>)
    ensures r.Ok? ==> |r.rest| < |s|
  {
    var (s1, _) :- NumberHeader('i' as byte, exponent, s);
    var (s2, negative) :- OptChar('-' as byte, s1);
    var (s3, n) :- NumberBody(w.IntegerMax(), s2);
    Ok(s3, Integer(w, if negative then 0 - n else n))
  }

  /** One numeric alternative of `t_t`. */
  datatype NumberType = NumberType(signed: bool, exponent: byte, w: Width)

  /** The numeric alternatives of `t_t`, in their order. */
  const NUMBER_TYPES: seq<NumberType> := [
    NumberType(false, '3' as byte, W3), NumberType(false, '6' as byte, W6), NumberType(false, '7' as byte, W7),
    NumberType(true, '3' as byte, W3), NumberType(true, '6' as byte, W6), NumberType(true, '7' as byte, W7),
    NumberType(false, '2' as byte, W3), NumberType(false, '4' as byte, W6), NumberType(false, '5' as byte, W6),
    NumberType(true, '1' as byte, W3), NumberType(true, '2' as byte, W3),
    NumberType(true, '4' as byte, W6), NumberType(true, '5' as byte, W6)
  ]

  function NumberOf(t: NumberType, s: Bytes): (r: Parsed<Value>)
    ensures r.Ok? ==> |r.rest| < |s|
  {
    if t.signed then IntegerP(t.exponent, t.w, s) else NaturalP(t.exponent, t.w, s)
  }

  /** `alt` over the numeric alternatives. */
  function NumberP(ts: seq<NumberType>, s: Bytes): (r: Parsed<Value>)
    ensures r.Ok? ==> |r.rest| < |s|
  {
    if ts == [] then Error else NumberOf(ts[0], s).Or(v => v, NumberP(ts[1..], s))
  }

  /** `tag_g(t_t)`: a tag that is not UTF-8 is noticed only after its value has been parsed. */
  function TagP(s: Bytes): (r: Parsed<Tag<Value>>)
    ensures r.Ok? ==> |r.rest| < |s|
    decreases |s|, 0
  {
    var (s1, tag) :- Sized('<', '|', s);
    var (s2, val) :- ValueP(s1);
    if ValidUtf8(tag) then Ok(s2, Tag(tag, val)) else Failure
  }

  /** `list_g(t_t)`: bytes of the content that no item parser accepts are dropped. */
  function ListP(s: Bytes): (r: Parsed<seq<Value>>)
    ensures r.Ok? ==> |r.rest| < |s|
    decreases |s|, 0
  {
    var (s1, content) :- Sized('[', ']', s);
    var (_, items) :- ItemsP(content);
    Ok(s1, items)
  }

  /** `record_g(t_t)` */
  function RecordP(s: Bytes): (r: Parsed<map<Bytes, Value>>)
    ensures r.Ok? ==> |r.rest| < |s|
    decreases |s|, 0
  {
    var (s1, content) :- Sized('{', '}', s);
    var (_, entries) :- EntriesP(content);
    if Inserted(entries) == map[] then Failure else Ok(s1, Inserted(entries))
  }

  /** `t_t` */
  function ValueP(s: Bytes): (r: Parsed<Value>)
    ensures r.Ok? ==> |r.rest| < |s|
    decreases |s|, 1
  {
    TextP(s).Or(b => Text(b),
    BinaryP(s).Or(b => Binary(b),
    UnitP(s).Or(_ => Unit,
    TagP(s).Or(t => Sum(t),
    ListP(s).Or(l => List(l),
    RecordP(s).Or(m => Record(m),
    BooleanP(s).Or(b => Boolean(b),
    NumberP(NUMBER_TYPES, s))))))))
  }

  /** `many0(inner_no_empty_string(t_t))` */
  function ItemsP(s: Bytes): (r: Parsed<seq<Value>>)
    decreases |s|, 2
  {
    if s == [] then Ok(s, [])
    else match ValueP(s)
      case Error => Ok(s, [])
      case Incomplete => Incomplete
      case Failure => Failure
      case Ok(rest, v) =>
        if rest == s then Error
        else
          var (rest', vs) :- ItemsP(rest);
          Ok(rest', [v] + vs)
  }

  /** `fold_many0(inner_no_empty_string(tag_g(t_t)), …)`: the tags that the fold inserts. */
  function EntriesP(s: Bytes): (r: Parsed<seq<Tag<Value>>>)
    decreases |s|, 2
  {
    if s == [] then Ok(s, [])
    else match TagP(s)
      case Error => Ok(s, [])
      case Incomplete => Incomplete
      case Failure => Failure
      case Ok(rest, t) =>
        if rest == s then Error
        else
          var (rest', ts) :- EntriesP(rest);
          Ok(rest', [t] + ts)
  }
}
