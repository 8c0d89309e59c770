// What the parser makes of numbers, told by their bytes: any digits, leading zeros included,
// every type tag with its range, and what may be wrong.
module Forms {
  import opened Bytes
  import opened Nom
  import opened Netencode
  import opened Parse
  import Streaming
  import RoundTrip

  /** One or more of the characters from 0 to 9. */
  ghost predicate Digits(ds: Bytes) {
    ds != [] && forall i :: 0 <= i < |ds| ==> '0' as byte <= ds[i] <= '9' as byte
  }

  ghost function Pow10(e: nat): nat {
    if e == 0 then 1 else 10 * Pow10(e - 1)
  }

  ghost function Digit(b: byte): nat {
    if '0' as byte <= b <= '9' as byte then (b - '0' as byte) as int else 0
  }

  /** Each digit times the power of ten of its place. */
  ghost function Decimal(ds: Bytes): nat {
    if ds == [] then 0 else Digit(ds[0]) * Pow10(|ds| - 1) + Decimal(ds[1..])
  }

  lemma Scaled(a: nat, p: nat, b: nat)
    ensures 10 * (a * p + b) == a * (10 * p) + 10 * b
  {}

  lemma {:induction false} DecimalSnoc(ds: Bytes)
    requires Digits(ds)
    ensures var n := |ds| - 1;
      Decimal(ds) == 10 * Decimal(ds[..n]) + Digit(ds[n])
  {
    var n := |ds| - 1;
    if n == 0 {
      assert ds[1..] == [] && ds[..0] == [];
    } else {
      DecimalSnoc(ds[1..]);
      assert ds[1..][..n - 1] == ds[..n][1..];
      assert ds[1..][n - 1] == ds[n];
      Scaled(Digit(ds[0]), Pow10(n - 1), Decimal(ds[1..][..n - 1]));
    }
  }

  /** Digits are read as the number that they write, leading zeros included. */
  lemma {:induction false} ReadIsDecimal(ds: Bytes)
    requires Digits(ds)
    ensures AllDigits(ds) && Read(ds) == Decimal(ds)
  {
    var n := |ds| - 1;
    DecimalSnoc(ds);
    if n > 0 {
      ReadIsDecimal(ds[..n]);
    } else {
      assert ds[..n] == [];
    }
  }

  lemma LeadingZero(ds: Bytes)
    requires Digits(ds)
    ensures Read(['0' as byte] + ds) == Read(ds)
  {
    var s := ['0' as byte] + ds;
    assert s[1..] == ds;
    ReadIsDecimal(s);
    ReadIsDecimal(ds);
  }

  /** A digit run ends at the first other byte, and its number is checked against the range. */
  lemma NumberIs(max: nat, ds: Bytes, tail: Bytes)
    requires Digits(ds) && tail != [] && !('0' as byte <= tail[0] <= '9' as byte)
    ensures Number(max, ds + tail) == if Decimal(ds) <= max then Ok(tail, Decimal(ds)) else Error
  {
    ReadIsDecimal(ds);
    AllDigitsRun(ds);
    DigitRunAppend(ds, tail);
    assert (ds + tail)[..|ds|] == ds && (ds + tail)[|ds|..] == tail;
  }

  lemma NoNumber(max: nat, s: Bytes)
    requires s != [] && !('0' as byte <= s[0] <= '9' as byte)
    ensures Number(max, s) == Error
  {}

  lemma BodyIs(max: nat, ds: Bytes, c: byte, tail: Bytes)
    requires Digits(ds) && !('0' as byte <= c <= '9' as byte)
    ensures NumberBody(max, ds + ([c] + tail))
         == if Decimal(ds) <= max && c == ',' as byte then Ok(tail, Decimal(ds)) else Error
  {
    hide Number, Decimal;
    NumberIs(max, ds, [c] + tail);
    assert ([c] + tail)[1..] == tail;
  }

  // ---- Numbers of every type

  /** A type tag in front of what follows. */
  function Marked(letter: byte, exponent: byte, rest: Bytes): Bytes {
    [letter, exponent, ':' as byte] + rest
  }

  /** Digits, the byte behind them and the tail. */
  function Ended(ds: Bytes, c: byte, tail: Bytes): Bytes {
    ds + ([c] + tail)
  }

  function Signed(minus: bool, digits: Bytes): Bytes {
    if minus then ['-' as byte] + digits else digits
  }

  lemma EndedIs(max: nat, ds: Bytes, c: byte, tail: Bytes)
    requires Digits(ds) && !('0' as byte <= c <= '9' as byte)
    ensures Ended(ds, c, tail) != [] && '0' as byte <= Ended(ds, c, tail)[0] <= '9' as byte
    ensures NumberBody(max, Ended(ds, c, tail))
         == if Decimal(ds) <= max && c == ',' as byte then Ok(tail, Decimal(ds)) else Error
  {
    hide NumberBody, Decimal;
    BodyIs(max, ds, c, tail);
  }

  lemma MarkedHeader(letter: byte, exponent: byte, rest: Bytes)
    ensures NumberHeader(letter, exponent, Marked(letter, exponent, rest)) == Ok(rest, ':' as byte)
  {
    hide NumberHeader;
    RoundTrip.HeaderOfPrinted(letter, exponent, letter, exponent, rest);
  }

  lemma SignedStart(minus: bool, digits: Bytes)
    requires digits != [] && '0' as byte <= digits[0] <= '9' as byte
    ensures OptChar('-' as byte, Signed(minus, digits)) == Ok(digits, minus)
  {
    hide OptChar;
    RoundTrip.SignOfPrinted(digits, minus);
  }

  /** The widths that a value with this type tag has. */
  function WidthOf(exponent: char): Width {
    if exponent in "123" then W3 else if exponent in "456" then W6 else W7
  }

  lemma NumbersOf(letter: byte, k: nat, exponent: byte, rest: Bytes)
    requires k < |NUMBER_TYPES| && NUMBER_TYPES[k].exponent == exponent
    requires letter == if NUMBER_TYPES[k].signed then 'i' as byte else 'n' as byte
    requires letter == 'n' as byte ==> exponent != '1' as byte
    ensures ValueP(Marked(letter, exponent, rest)) == NumberOf(NUMBER_TYPES[k], Marked(letter, exponent, rest))
  {
    var s := Marked(letter, exponent, rest);
    var signed := NUMBER_TYPES[k].signed;
    assert s[0] == letter;
    NotBoolean(letter, exponent, rest);
    hide NumberOf, NumberP, TextP, BinaryP, UnitP, TagP, ListP, RecordP, ValueP, BooleanP;
    forall j | 0 <= j < |NUMBER_TYPES| && j != k ensures NumberOf(NUMBER_TYPES[j], s) == Error {
      assert NUMBER_TYPES[j].signed != signed || NUMBER_TYPES[j].exponent != exponent;
      RoundTrip.OtherType(NUMBER_TYPES[j], signed, exponent, rest);
    }
    RoundTrip.OnlyAlternative(NUMBER_TYPES, k, s);
    Streaming.Dispatch(s);
  }

  lemma NotBoolean(letter: byte, exponent: byte, rest: Bytes)
    requires letter != 'n' as byte || exponent != '1' as byte
    ensures BooleanP(Marked(letter, exponent, rest)) == Error
  {
    var s := Marked(letter, exponent, rest);
    assert s[0] == letter && s[1] == exponent;
  }

  /** The place of a type tag among the alternatives. */
  function NaturalAt(exponent: char): nat {
    match exponent
    case '3' => 0
    case '6' => 1
    case '7' => 2
    case '2' => 6
    case '4' => 7
    case _ => 8
  }

  function IntegerAt(exponent: char): nat {
    match exponent
    case '3' => 3
    case '6' => 4
    case '7' => 5
    case '1' => 9
    case '2' => 10
    case '4' => 11
    case _ => 12
  }

  lemma NaturalRow(exponent: char)
    requires exponent in "234567"
    ensures NaturalAt(exponent) < |NUMBER_TYPES| && exponent < (128 as char) && exponent as byte != '1' as byte
    ensures NUMBER_TYPES[NaturalAt(exponent)] == NumberType(false, exponent as byte, WidthOf(exponent))
  {}

  lemma IntegerRow(exponent: char)
    requires exponent in "1234567"
    ensures IntegerAt(exponent) < |NUMBER_TYPES| && exponent < (128 as char)
    ensures NUMBER_TYPES[IntegerAt(exponent)] == NumberType(true, exponent as byte, WidthOf(exponent))
  {}

  lemma NaturalAlternative(exponent: char, rest: Bytes)
    requires exponent in "234567"
    ensures exponent < (128 as char)
    ensures var s := Marked('n' as byte, exponent as byte, rest);
      ValueP(s) == NumberOf(NumberType(false, exponent as byte, WidthOf(exponent)), s)
  {
    NaturalRow(exponent);
    hide ValueP, NumberOf, WidthOf, NaturalAt, Marked;
    NumbersOf('n' as byte, NaturalAt(exponent), exponent as byte, rest);
  }

  lemma IntegerAlternative(exponent: char, rest: Bytes)
    requires exponent in "1234567"
    ensures exponent < (128 as char)
    ensures var s := Marked('i' as byte, exponent as byte, rest);
      ValueP(s) == NumberOf(NumberType(true, exponent as byte, WidthOf(exponent)), s)
  {
    IntegerRow(exponent);
    hide ValueP, NumberOf, WidthOf, IntegerAt, Marked;
    NumbersOf('i' as byte, IntegerAt(exponent), exponent as byte, rest);
  }

  lemma Ranges(exponent: char)
    requires exponent in "1234567"
    ensures match exponent
      case '1' | '2' | '3' => WidthOf(exponent) == W3 && W3.NaturalMax() == 255 && W3.IntegerMax() == 127
      case '4' | '5' | '6' =>
        WidthOf(exponent) == W6 && W6.NaturalMax() == 18446744073709551615 && W6.IntegerMax() == 9223372036854775807
      case _ =>
        && WidthOf(exponent) == W7 && W7.NaturalMax() == 340282366920938463463374607431768211455
        && W7.IntegerMax() == 170141183460469231731687303715884105727
  {}

  lemma NaturalParts(e: byte, w: Width, s: Bytes, digits: Bytes, n: nat, right: bool, tail: Bytes)
    requires NumberHeader('n' as byte, e, s) == Ok(digits, ':' as byte)
    requires NumberBody(w.NaturalMax(), digits) == if n <= w.NaturalMax() && right then Ok(tail, n) else Error
    ensures NumberOf(NumberType(false, e, w), s) == if n <= w.NaturalMax() && right then Ok(tail, Natural(w, n)) else Error
  {
    hide NumberHeader, NumberBody;
  }

  lemma IntegerParts(e: byte, w: Width, s: Bytes, rest: Bytes, digits: Bytes, minus: bool, n: nat, right: bool, tail: Bytes)
    requires NumberHeader('i' as byte, e, s) == Ok(rest, ':' as byte) && OptChar('-' as byte, rest) == Ok(digits, minus)
    requires NumberBody(w.IntegerMax(), digits) == if n <= w.IntegerMax() && right then Ok(tail, n) else Error
    ensures NumberOf(NumberType(true, e, w), s)
         == if n <= w.IntegerMax() && right then Ok(tail, Integer(w, if minus then 0 - n else n)) else Error
  {
    hide NumberHeader, NumberBody, OptChar;
  }

  /** What a number of this range is read as; `right` says that the byte behind it is. */
  function InRange(n: nat, max: nat, right: bool, tail: Bytes, v: Value): Parsed<Value> {
    if n <= max && right then Ok(tail, v) else Error
  }

  lemma NaturalOfType(exponent: char, ds: Bytes, c: byte, tail: Bytes)
    requires exponent in "234567" && Digits(ds) && !('0' as byte <= c <= '9' as byte)
    ensures var w := WidthOf(exponent);
      ValueP(Marked('n' as byte, exponent as byte, Ended(ds, c, tail)))
      == InRange(Decimal(ds), w.NaturalMax(), c == ',' as byte, tail, Natural(w, Decimal(ds)))
  {
    hide *;
    NaturalAlternative(exponent, Ended(ds, c, tail));
    var (e, w, digits) := (exponent as byte, WidthOf(exponent), Ended(ds, c, tail));
    MarkedHeader('n' as byte, e, digits);
    EndedIs(w.NaturalMax(), ds, c, tail);
    NaturalParts(e, w, Marked('n' as byte, e, digits), digits, Decimal(ds), c == ',' as byte, tail);
    RangeIs(Decimal(ds), w.NaturalMax(), c == ',' as byte, tail, Natural(w, Decimal(ds)));
  }

  lemma RangeIs(n: nat, max: nat, right: bool, tail: Bytes, v: Value)
    ensures InRange(n, max, right, tail, v) == if n <= max && right then Ok(tail, v) else Error
  {}

  /** Main result: what a natural number of each type is read as, for any digits, any byte behind
      them and any tail. */
  lemma NaturalIsRead(exponent: char, ds: Bytes, c: byte, tail: Bytes)
    requires exponent in "234567" && Digits(ds) && !('0' as byte <= c <= '9' as byte)
    ensures var (r, n) := (ValueP(Marked('n' as byte, exponent as byte, Ended(ds, c, tail))), Decimal(ds));
      match exponent
      case '2' | '3' => r == InRange(n, 255, c == ',' as byte, tail, Natural(W3, n))
      case '4' | '5' | '6' => r == InRange(n, 18446744073709551615, c == ',' as byte, tail, Natural(W6, n))
      case _ => r == InRange(n, 340282366920938463463374607431768211455, c == ',' as byte, tail, Natural(W7, n))
  {
    NaturalOfType(exponent, ds, c, tail);
    Ranges(exponent);
    hide *;
  }

  lemma IntegerOfType(exponent: char, minus: bool, ds: Bytes, c: byte, tail: Bytes)
    requires exponent in "1234567" && Digits(ds) && !('0' as byte <= c <= '9' as byte)
    ensures var w := WidthOf(exponent);
      ValueP(Marked('i' as byte, exponent as byte, Signed(minus, Ended(ds, c, tail))))
      == InRange(Decimal(ds), w.IntegerMax(), c == ',' as byte, tail, Integer(w, if minus then 0 - Decimal(ds) else Decimal(ds)))
  {
    hide *;
    var rest := Signed(minus, Ended(ds, c, tail));
    IntegerAlternative(exponent, rest);
    var (e, w, digits) := (exponent as byte, WidthOf(exponent), Ended(ds, c, tail));
    MarkedHeader('i' as byte, e, rest);
    EndedIs(w.IntegerMax(), ds, c, tail);
    SignedStart(minus, digits);
    IntegerParts(e, w, Marked('i' as byte, e, rest), rest, digits, minus, Decimal(ds), c == ',' as byte, tail);
    RangeIs(Decimal(ds), w.IntegerMax(), c == ',' as byte, tail, Integer(w, if minus then 0 - Decimal(ds) else Decimal(ds)));
  }

  /** Main result: the same for signed numbers. The digits have to fit without their sign. */
  lemma IntegerIsRead(exponent: char, minus: bool, ds: Bytes, c: byte, tail: Bytes)
    requires exponent in "1234567" && Digits(ds) && !('0' as byte <= c <= '9' as byte)
    ensures var r := ValueP(Marked('i' as byte, exponent as byte, Signed(minus, Ended(ds, c, tail))));
      var (n, i) := (Decimal(ds), if minus then 0 - Decimal(ds) else Decimal(ds));
      match exponent
      case '1' | '2' | '3' => r == InRange(n, 127, c == ',' as byte, tail, Integer(W3, i))
      case '4' | '5' | '6' => r == InRange(n, 9223372036854775807, c == ',' as byte, tail, Integer(W6, i))
      case _ => r == InRange(n, 170141183460469231731687303715884105727, c == ',' as byte, tail, Integer(W7, i))
  {
    IntegerOfType(exponent, minus, ds, c, tail);
    Ranges(exponent);
    hide *;
  }

  lemma NoNumberOf(letter: byte, exponent: byte, rest: Bytes)
    requires letter == 'n' as byte || letter == 'i' as byte
    requires !('1' as byte <= exponent <= '7' as byte) || (letter == 'n' as byte && exponent == '1' as byte)
    ensures NumberP(NUMBER_TYPES, Marked(letter, exponent, rest)) == Error
  {
    var s := Marked(letter, exponent, rest);
    hide NumberOf, NumberP;
    forall j | 0 <= j < |NUMBER_TYPES| ensures NumberOf(NUMBER_TYPES[j], s) == Error {
      RoundTrip.OtherType(NUMBER_TYPES[j], letter == 'i' as byte, exponent, rest);
    }
    RoundTrip.NoAlternative(NUMBER_TYPES, s);
  }

  lemma FiveBytes(ds: Bytes, c: byte, tail: Bytes)
    requires Digits(ds) && !('0' as byte <= c <= '9' as byte)
    ensures BooleanP(Marked('n' as byte, '1' as byte, Ended(ds, c, tail))) ==
      if ds == ['0' as byte] && c == ',' as byte then Ok(tail, false)
      else if ds == ['1' as byte] && c == ',' as byte then Ok(tail, true)
      else Error
  {
    var s := Marked('n' as byte, '1' as byte, Ended(ds, c, tail));
    assert s[3] == ds[0] && s[4] == if |ds| == 1 then c else ds[1];
    assert |ds| == 1 ==> s[5..] == tail;
  }

  /** The truth values are exactly two texts. */
  lemma BooleanIsRead(ds: Bytes, c: byte, tail: Bytes)
    requires Digits(ds) && !('0' as byte <= c <= '9' as byte)
    ensures ValueP(Marked('n' as byte, '1' as byte, Ended(ds, c, tail))) ==
      if ds == ['0' as byte] && c == ',' as byte then Ok(tail, Boolean(false))
      else if ds == ['1' as byte] && c == ',' as byte then Ok(tail, Boolean(true))
      else Error
  {
    var s := Marked('n' as byte, '1' as byte, Ended(ds, c, tail));
    assert s[0] == 'n' as byte;
    FiveBytes(ds, c, tail);
    hide ValueP, NumberP, TextP, BinaryP, UnitP, TagP, ListP, RecordP, BooleanP, Ended;
    NoNumberOf('n' as byte, '1' as byte, Ended(ds, c, tail));
    Streaming.Dispatch(s);
  }

  /** Every other type tag is an error. */
  lemma OtherTypes(letter: byte, exponent: byte, rest: Bytes)
    requires letter == 'n' as byte || letter == 'i' as byte
    requires !('1' as byte <= exponent <= '7' as byte)
    ensures ValueP(Marked(letter, exponent, rest)) == Error
  {
    var s := Marked(letter, exponent, rest);
    assert s[0] == letter;
    NotBoolean(letter, exponent, rest);
    hide ValueP, NumberP, TextP, BinaryP, UnitP, TagP, ListP, RecordP, BooleanP;
    NoNumberOf(letter, exponent, rest);
    Streaming.Dispatch(s);
  }

  lemma OtherLetters(s: Bytes)
    requires s != [] && s[0] !in ['t' as byte, 'b' as byte, 'u' as byte, '<' as byte, '[' as byte, '{' as byte, 'n' as byte, 'i' as byte]
    ensures ValueP(s) == Error
  {
    hide ValueP, TextP, BinaryP, UnitP, TagP, ListP, RecordP, BooleanP, NumberP;
    Streaming.Dispatch(s);
    Streaming.OtherLetters(s);
  }
}
