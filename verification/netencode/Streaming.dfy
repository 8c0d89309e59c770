// Appending bytes to the input: a parser that has answered anything but
// `Incomplete` keeps its answer.
module Streaming {
  import opened Bytes
  import opened Nom
  import opened Netencode
  import opened Parse

  /** The first byte selects the alternative of `t_t`. */
  lemma Dispatch(s: Bytes)
    requires s != []
    ensures ValueP(s) ==
      if s[0] == 't' as byte then TextP(s).Or(b => Text(b), Error)
      else if s[0] == 'b' as byte then BinaryP(s).Or(b => Binary(b), Error)
      else if s[0] == 'u' as byte then UnitP(s).Or(_ => Unit, Error)
      else if s[0] == '<' as byte then TagP(s).Or(t => Sum(t), Error)
      else if s[0] == '[' as byte then ListP(s).Or(l => List(l), Error)
      else if s[0] == '{' as byte then RecordP(s).Or(m => Record(m), Error)
      else BooleanP(s).Or(b => Boolean(b), NumberP(NUMBER_TYPES, s))
  {
    hide TextP, BinaryP, UnitP, TagP, ListP, RecordP, BooleanP, NumberP;
    OtherLetters(s);
  }

  lemma OtherLetters(s: Bytes)
    requires s != []
    ensures s[0] != 't' as byte ==> TextP(s) == Error
    ensures s[0] != 'b' as byte ==> BinaryP(s) == Error
    ensures s[0] != 'u' as byte ==> UnitP(s) == Error
    ensures s[0] != '<' as byte ==> TagP(s) == Error
    ensures s[0] != '[' as byte ==> ListP(s) == Error
    ensures s[0] != '{' as byte ==> RecordP(s) == Error
    ensures s[0] != 'n' as byte ==> BooleanP(s) == Error
    ensures s[0] != 'n' as byte && s[0] != 'i' as byte ==> NumberP(NUMBER_TYPES, s) == Error
  {
    OtherNumbers(NUMBER_TYPES, s);
  }

  lemma OtherNumbers(ts: seq<NumberType>, s: Bytes)
    requires s != []
    ensures s[0] != 'n' as byte && s[0] != 'i' as byte ==> NumberP(ts, s) == Error
  {}

  lemma SizedStable(begin: char, end: char, s: Bytes, more: Bytes)
    requires begin < (128 as char) && end < (128 as char)
    ensures Stable(Sized(begin, end, s), Sized(begin, end, s + more), more)
  {
    hide Char, Number, Take;
    CharStable(begin as byte, s, more);
    if Char(begin as byte, s).Ok? {
      var s1 := Char(begin as byte, s).rest;
      NumberStable(USIZE_MAX, s1, more);
      if Number(USIZE_MAX, s1).Ok? {
        var Ok(s2, len) := Number(USIZE_MAX, s1);
        CharStable(':' as byte, s2, more);
        if Char(':' as byte, s2).Ok? {
          var s3 := Char(':' as byte, s2).rest;
          TakeStable(len, s3, more);
          if Take(len, s3).Ok? {
            CharStable(end as byte, Take(len, s3).rest, more);
          }
        }
      }
    }
  }

  lemma HeaderStable(letter: byte, e: byte, s: Bytes, more: Bytes)
    ensures Stable(NumberHeader(letter, e, s), NumberHeader(letter, e, s + more), more)
  {
    hide Char, Literal;
    LiteralStable([letter, e], s, more);
    if Literal([letter, e], s).Ok? {
      CharStable(':' as byte, Literal([letter, e], s).rest, more);
    }
  }

  lemma BodyStable(max: nat, s: Bytes, more: Bytes)
    ensures Stable(NumberBody(max, s), NumberBody(max, s + more), more)
  {
    hide Char, Number;
    NumberStable(max, s, more);
    if Number(max, s).Ok? {
      CharStable(',' as byte, Number(max, s).rest, more);
    }
  }

  lemma NaturalStable(e: byte, w: Width, s: Bytes, more: Bytes)
    ensures Stable(NaturalP(e, w, s), NaturalP(e, w, s + more), more)
  {
    hide NumberHeader, NumberBody;
    HeaderStable('n' as byte, e, s, more);
    if NumberHeader('n' as byte, e, s).Ok? {
      BodyStable(w.NaturalMax(), NumberHeader('n' as byte, e, s).rest, more);
    }
  }

  lemma OptCharStable(c: byte, s: Bytes, more: Bytes)
    ensures Stable(OptChar(c, s), OptChar(c, s + more), more)
  {}

  lemma IntegerStable(e: byte, w: Width, s: Bytes, more: Bytes)
    ensures Stable(IntegerP(e, w, s), IntegerP(e, w, s + more), more)
  {
    hide OptChar, NumberHeader, NumberBody;
    HeaderStable('i' as byte, e, s, more);
    var header := NumberHeader('i' as byte, e, s);
    if header.Ok? {
      OptCharStable('-' as byte, header.rest, more);
      var sign := OptChar('-' as byte, header.rest);
      if sign.Ok? {
        BodyStable(w.IntegerMax(), sign.rest, more);
      }
    }
  }

  lemma {:induction false} NumbersStable(ts: seq<NumberType>, s: Bytes, more: Bytes)
    ensures Stable(NumberP(ts, s), NumberP(ts, s + more), more)
  {
    if ts != [] {
      NaturalStable(ts[0].exponent, ts[0].w, s, more);
      IntegerStable(ts[0].exponent, ts[0].w, s, more);
      NumbersStable(ts[1..], s, more);
    }
  }

  lemma BooleanStable(s: Bytes, more: Bytes)
    ensures Stable(BooleanP(s), BooleanP(s + more), more)
  {
    LiteralStable(['n' as byte, '1' as byte, ':' as byte, '0' as byte, ',' as byte], s, more);
    LiteralStable(['n' as byte, '1' as byte, ':' as byte, '1' as byte, ',' as byte], s, more);
  }

  lemma TextStable(s: Bytes, more: Bytes)
    ensures Stable(TextP(s), TextP(s + more), more)
  {
    hide Sized;
    SizedStable('t', ',', s, more);
  }

  lemma ListStable(s: Bytes, more: Bytes)
    ensures Stable(ListP(s), ListP(s + more), more)
  {
    hide Sized, ItemsP;
    SizedStable('[', ']', s, more);
  }

  lemma RecordStable(s: Bytes, more: Bytes)
    ensures Stable(RecordP(s), RecordP(s + more), more)
  {
    hide Sized, EntriesP, Inserted;
    SizedStable('{', '}', s, more);
  }

  lemma {:induction false} TagStable(s: Bytes, more: Bytes)
    ensures Stable(TagP(s), TagP(s + more), more)
    decreases |s|, 0
  {
    hide Sized, ValueP;
    SizedStable('<', '|', s, more);
    if Sized('<', '|', s).Ok? {
      ValueStable(Sized('<', '|', s).rest, more);
    }
  }

  /** Whatever `t_t` has decided about an input, it also decides about every longer
      input: the same value with the extra bytes left over, or the same error. */
  lemma {:induction false} ValueStable(s: Bytes, more: Bytes)
    ensures Stable(ValueP(s), ValueP(s + more), more)
    decreases |s|, 1
  {
    if s != [] {
      hide Sized, TextP, BinaryP, UnitP, TagP, ListP, RecordP, BooleanP, NumberP;
      assert (s + more)[0] == s[0];
      Dispatch(s);
      Dispatch(s + more);
      TextStable(s, more);
      SizedStable('b', ',', s, more);
      ListStable(s, more);
      RecordStable(s, more);
      LiteralStable(['u' as byte, ',' as byte], s, more);
      TagStable(s, more);
      BooleanStable(s, more);
      NumbersStable(NUMBER_TYPES, s, more);
    }
  }
}
