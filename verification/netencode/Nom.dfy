// The parsers of nom 5.1.1 that netencode uses, in their streaming form, as
// functions from the input to a result.
module Nom {
  import opened Bytes

  /** `IResult`: the rest of the input with a value, or one of the three `nom::Err`. */
  datatype Parsed<+A> =
    | Ok(rest: Bytes, value: A)
    | Incomplete
    | Error
    | Failure
  {
    predicate IsFailure() {
      !Ok?
    }

    function PropagateFailure<B>(): Parsed<B>
      requires IsFailure()
    {
      match this
      case Incomplete => Incomplete
      case Error => Error
      case Failure => Failure
    }

    function Extract(): (Bytes, A)
      requires Ok?
    {
      (rest, value)
    }

    /** One step of `alt`: only an `Error` lets the next alternative run. */
    function Or<B>(f: A -> B, next: Parsed<B>): (r: Parsed<B>)
      ensures r.Ok? ==> (Ok? && r.rest == rest) || (Error? && r == next)
    {
      match this
      case Ok(r, a) => Ok(r, f(a))
      case Incomplete => Incomplete
      case Failure => Failure
      case Error => next
    }

    /** The same result with `more` behind the unread input. */
    function Extended(more: Bytes): Parsed<A> {
      if Ok? then Ok(rest + more, value) else this
    }
  }

  /** `after` is what `before` becomes once `more` has been appended to the input:
      only an `Incomplete` may change. */
  ghost predicate Stable<A>(before: Parsed<A>, after: Parsed<A>, more: Bytes) {
    before.Incomplete? || after == before.Extended(more)
  }

  /** `char(c)` */
  function Char(c: byte, s: Bytes): (r: Parsed<byte>)
    ensures r.Ok? ==> |s| == 1 + |r.rest|
  {
    if s == [] then Incomplete else if s[0] == c then Ok(s[1..], c) else Error
  }

  /** `tag(t)` */
  function Literal(t: Bytes, s: Bytes): (r: Parsed<Bytes>)
    ensures r.Ok? ==> |s| == |t| + |r.rest|
  {
    if t <= s then Ok(s[|t|..], t) else if s <= t then Incomplete else Error
  }

  /** `take(n)` */
  function Take(n: nat, s: Bytes): (r: Parsed<Bytes>)
    ensures r.Ok? <==> n <= |s|
    ensures r.Ok? ==> |r.value| == n && |s| == n + |r.rest|
  {
    if n <= |s| then Ok(s[n..], s[..n]) else Incomplete
  }

  function DigitRun(s: Bytes): (k: nat)
    ensures k <= |s| && AllDigits(s[..k])
    ensures k < |s| ==> !IsDigit(s[k])
  {
    if s != [] && IsDigit(s[0]) then
      assert s[..DigitRun(s[1..]) + 1] == [s[0]] + s[1..][..DigitRun(s[1..])];
      DigitRun(s[1..]) + 1
    else 0
  }

  /** `digit1`: a digit run counts only once the byte behind it has been seen. */
  function Digit1(s: Bytes): (r: Parsed<Bytes>)
    ensures r.Ok? ==> AllDigits(r.value) && r.value != [] && r.rest != [] && !IsDigit(r.rest[0])
    ensures r.Ok? ==> |s| == |r.value| + |r.rest|
  {
    var k := DigitRun(s);
    if k == |s| then Incomplete else if k == 0 then Error else Ok(s[k..], s[..k])
  }

  /** `map_res` of `digit1` with `parse::<I>()`, where `max` is the largest `I`.
      (The `from_utf8` between the two cannot fail on digits.) */
  function Number(max: nat, s: Bytes): (r: Parsed<nat>)
    ensures r.Ok? ==> r.value <= max && |Show(r.value)| + |r.rest| <= |s|
  {
    var (rest, ds) :- Digit1(s);
    ShowIsShortest(ds);
    if Read(ds) <= max then Ok(rest, Read(ds)) else Error
  }

  /** `opt(char(c))` */
  function OptChar(c: byte, s: Bytes): (r: Parsed<bool>)
    ensures r.Ok? ==> |s| == (if r.value then 1 else 0) + |r.rest|
  {
    match Char(c, s)
    case Ok(rest, _) => Ok(rest, true)
    case Error => Ok(s, false)
    case Incomplete => Incomplete
    case Failure => Failure
  }

  lemma DigitRunAppend(s: Bytes, more: Bytes)
    ensures DigitRun(s) < |s| ==> DigitRun(s + more) == DigitRun(s)
    ensures more != [] && !IsDigit(more[0]) ==> DigitRun(s + more) == DigitRun(s)
  {
    if s == [] {
      assert s + more == more;
    } else if IsDigit(s[0]) {
      assert (s + more)[1..] == s[1..] + more;
      DigitRunAppend(s[1..], more);
    }
  }

  lemma AllDigitsRun(ds: Bytes)
    requires AllDigits(ds)
    ensures DigitRun(ds) == |ds|
  {}

  lemma NumberStable(max: nat, s: Bytes, more: Bytes)
    ensures Stable(Number(max, s), Number(max, s + more), more)
  {
    DigitRunAppend(s, more);
    var k := DigitRun(s);
    if k < |s| {
      assert (s + more)[..k] == s[..k];
      assert (s + more)[k..] == s[k..] + more;
    }
  }

  /** A number that was printed is read back, and the range check is all that can fail. */
  lemma NumberOfShow(max: nat, n: nat, tail: Bytes)
    requires tail != [] && !IsDigit(tail[0])
    ensures Number(max, Show(n) + tail) == if n <= max then Ok(tail, n) else Error
  {
    var ds := Show(n);
    AllDigitsRun(ds);
    DigitRunAppend(ds, tail);
    assert (ds + tail)[..|ds|] == ds && (ds + tail)[|ds|..] == tail;
    ReadShow(n);
  }

  lemma CharStable(c: byte, s: Bytes, more: Bytes)
    ensures Stable(Char(c, s), Char(c, s + more), more)
  {}

  lemma LiteralStable(t: Bytes, s: Bytes, more: Bytes)
    ensures Stable(Literal(t, s), Literal(t, s + more), more)
  {
    if t <= s {
      assert (s + more)[..|t|] == s[..|t|];
      assert (s + more)[|t|..] == s[|t|..] + more;
    } else if !(s <= t) {
      var i :| 0 <= i < |s| && i < |t| && s[i] != t[i];
      assert (s + more)[i] != t[i];
    }
  }

  lemma TakeStable(n: nat, s: Bytes, more: Bytes)
    ensures Stable(Take(n, s), Take(n, s + more), more)
  {
    if n <= |s| {
      assert (s + more)[..n] == s[..n];
      assert (s + more)[n..] == s[n..] + more;
    }
  }
}
