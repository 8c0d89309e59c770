// Whole numbers as doubles: `i as f64` is the nearest double.
module Doubles {
  import opened NixEquality

  ghost function Pow2(e: nat): (p: nat)
    ensures p >= 1
  {
    if e == 0 then 1 else 2 * Pow2(e - 1)
  }

  /** The whole number `m * 2^e`, with 53 bits for `m`, of which the first is used if it can be. */
  ghost predicate Binary(n: int, m: int, e: nat) {
    -0x20_0000_0000_0000 <= m <= 0x20_0000_0000_0000 && n == m * Pow2(e)
  }

  /** The whole numbers that a double can hold, but for the bound of its exponent. */
  ghost predicate Double(n: int) {
    exists m, e :: Binary(n, m, e)
  }

  function Distance(a: int, b: int): nat {
    if a < b then b - a else a - b
  }

  /** `n` is the double nearest to `i`; of two, the one whose last bit is 0. */
  ghost predicate Nearest(i: int, n: int) {
    && Double(n)
    && (forall k :: Double(k) ==> Distance(n, i) <= Distance(k, i))
    && (forall k :: Double(k) && k != n && Distance(k, i) == Distance(n, i) ==> EvenDouble(n))
  }

  ghost predicate EvenDouble(n: int) {
    exists m, e :: Binary(n, 2 * m, e) && (2 * m <= -0x10_0000_0000_0000 || 2 * m >= 0x10_0000_0000_0000)
  }

  lemma {:induction false} UlpIs(m: nat) returns (e: nat)
    ensures Ulp(m) == Pow2(e) && m < 0x20_0000_0000_0000 * Ulp(m)
    ensures e > 0 ==> 0x10_0000_0000_0000 * Ulp(m) <= m
  {
    if m < 0x20_0000_0000_0000 {
      e := 0;
    } else {
      e := UlpIs(m / 2);
      e := e + 1;
    }
  }

  lemma {:induction false} Pow2Multiple(e: nat, f: nat) returns (k: nat)
    requires e <= f
    ensures Pow2(f) == k * Pow2(e)
  {
    if e == f {
      k := 1;
    } else {
      k := Pow2Multiple(e, f - 1);
      k := 2 * k;
    }
  }

  lemma {:induction false} Pow2Below(f: nat, e: nat)
    requires f < e
    ensures 2 * Pow2(f) <= Pow2(e)
  {
    if f < e - 1 {
      Pow2Below(f, e - 1);
    }
  }

  lemma MoreMultiples(k: int, d: int, u: nat)
    ensures k <= d ==> k * u <= d * u
    ensures k > d ==> k * u >= d * u + u
  {
    if k > d {
      MultipleUp(k - d, u);
      assert k * u == (k - d) * u + d * u;
    } else {
      MultipleUp(d - k + 1, u);
      assert d * u == (d - k) * u + k * u;
    }
  }

  lemma MultipleUp(k: int, u: nat)
    requires k >= 1
    ensures k * u >= u && (k - 1) * u >= 0
  {}

  lemma ABinary(n: int, m: int, e: nat)
    requires Binary(n, m, e)
    ensures Double(n)
  {}

  lemma Associate(m: int, j: int, u: int)
    ensures m * (j * u) == (m * j) * u
  {}

  /** No double lies strictly between the two neighbouring multiples of the unit. */
  lemma NoneBetween(i: nat, n: int, e: nat, d: nat)
    requires Double(n) && d * Pow2(e) <= i < d * Pow2(e) + Pow2(e)
    requires e > 0 ==> 0x10_0000_0000_0000 * Pow2(e) <= i
    ensures n <= d * Pow2(e) || n >= d * Pow2(e) + Pow2(e)
  {
    var m: int, f: nat :| Binary(n, m, f);
    if f >= e {
      MultipleApart(n, m, f, e, d);
    } else {
      SmallBelow(i, n, m, f, e, d);
    }
  }

  lemma MultipleApart(n: int, m: int, f: nat, e: nat, d: nat)
    requires n == m * Pow2(f) && f >= e
    ensures n <= d * Pow2(e) || n >= d * Pow2(e) + Pow2(e)
  {
    var j := Pow2Multiple(e, f);
    var u := Pow2(e);
    Associate(m, j, u);
    MoreMultiples(m * j, d, u);
  }

  lemma SmallBelow(i: nat, n: int, m: int, f: nat, e: nat, d: nat)
    requires Binary(n, m, f) && f < e && i < d * Pow2(e) + Pow2(e) && 0x10_0000_0000_0000 * Pow2(e) <= i
    ensures n <= d * Pow2(e)
  {
    Pow2Below(f, e);
    MoreMultiples(m, 0x20_0000_0000_0000, Pow2(f));
    assert n <= 0x20_0000_0000_0000 * Pow2(f) <= 0x10_0000_0000_0000 * Pow2(e);
    if d < 0x10_0000_0000_0000 {
      MoreMultiples(0x10_0000_0000_0000, d, Pow2(e));
    } else {
      MoreMultiples(0x10_0000_0000_0000, d, Pow2(e));
    }
  }

  /** The nearer of two neighbours, against all that is not between them. */
  lemma Nearer(i: int, below: int, u: nat, up: bool, k: int)
    requires below <= i < below + u && (k <= below || k >= below + u)
    requires up ==> 2 * (i - below) >= u
    requires !up ==> 2 * (i - below) <= u
    ensures var n := if up then below + u else below;
      && Distance(n, i) <= Distance(k, i)
      && (k != n && Distance(k, i) == Distance(n, i) ==> 2 * (i - below) == u)
  {}

  lemma Divided(i: nat) returns (e: nat, d: nat, up: bool)
    ensures Pow2(e) == Ulp(i) && (e > 0 ==> 0x10_0000_0000_0000 * Pow2(e) <= i) && i < 0x20_0000_0000_0000 * Pow2(e)
    ensures d * Pow2(e) <= i < d * Pow2(e) + Pow2(e)
    ensures up ==> 2 * (i - d * Pow2(e)) >= Pow2(e)
    ensures !up ==> 2 * (i - d * Pow2(e)) <= Pow2(e)
    ensures 2 * (i - d * Pow2(e)) == Pow2(e) ==> (d % 2 == 1 <==> up)
    ensures AsFloat(i) == (if up then d + 1 else d) * Pow2(e)
  {
    e := UlpIs(i);
    var u := Ulp(i);
    d := i / u;
    var r := i % u;
    up := 2 * r > u || (2 * r == u && d % 2 == 1);
    assert i == d * u + r;
  }

  lemma OneMore(d: int, u: int)
    ensures (d + 1) * u == d * u + u
  {}

  lemma AgainstDouble(i: nat, e: nat, d: nat, up: bool, n: int, k: int)
    requires d * Pow2(e) <= i < d * Pow2(e) + Pow2(e) && i < 0x20_0000_0000_0000 * Pow2(e)
    requires e > 0 ==> 0x10_0000_0000_0000 * Pow2(e) <= i
    requires up ==> 2 * (i - d * Pow2(e)) >= Pow2(e)
    requires !up ==> 2 * (i - d * Pow2(e)) <= Pow2(e)
    requires 2 * (i - d * Pow2(e)) == Pow2(e) ==> (d % 2 == 1 <==> up)
    requires n == (if up then d + 1 else d) * Pow2(e) && Double(k)
    ensures Distance(n, i) <= Distance(k, i)
    ensures k != n && Distance(k, i) == Distance(n, i) ==> EvenDouble(n)
  {
    OneMore(d, Pow2(e));
    NoneBetween(i, k, e, d);
    Nearer(i, d * Pow2(e), Pow2(e), up, k);
    if 2 * (i - d * Pow2(e)) == Pow2(e) {
      HalfIsEven(e, i, d);
      TieIsEven(i, e, d, if up then d + 1 else d);
    }
    hide Pow2, Double, EvenDouble;
  }

  lemma NearestNat(i: nat)
    ensures Nearest(i, AsFloat(i))
  {
    var e, d, up := Divided(i);
    var n := AsFloat(i);
    QuotientIsDouble(i, e, d, if up then d + 1 else d);
    hide Ulp, AsFloat, Double, EvenDouble, Pow2, Distance;
    forall k | Double(k)
      ensures Distance(n, i) <= Distance(k, i)
      ensures k != n && Distance(k, i) == Distance(n, i) ==> EvenDouble(n)
    {
      AgainstDouble(i, e, d, up, n, k);
    }
  }

  lemma HalfIsEven(e: nat, i: int, d: int)
    requires 2 * (i - d * Pow2(e)) == Pow2(e)
    ensures e > 0 && Pow2(e) % 2 == 0
  {}

  lemma QuotientIsDouble(i: nat, e: nat, d: nat, q: nat)
    requires d * Pow2(e) <= i < 0x20_0000_0000_0000 * Pow2(e) && d <= q <= d + 1
    ensures Double(q * Pow2(e))
  {
    if d >= 0x20_0000_0000_0000 {
      MoreMultiples(0x20_0000_0000_0000, d, Pow2(e));
    }
    ABinary(q * Pow2(e), q, e);
  }

  lemma TieIsEven(i: nat, e: nat, d: nat, q: nat)
    requires d * Pow2(e) <= i < d * Pow2(e) + Pow2(e) && i < 0x20_0000_0000_0000 * Pow2(e) && d <= q <= d + 1 && q % 2 == 0
    requires Pow2(e) % 2 == 0 && 0x10_0000_0000_0000 * Pow2(e) <= i
    ensures EvenDouble(q * Pow2(e))
  {
    MoreMultiples(0x10_0000_0000_0000, d, Pow2(e));
    if d < 0x10_0000_0000_0000 {
      MoreMultiples(d, 0x10_0000_0000_0000 - 1, Pow2(e));
    }
    if d >= 0x20_0000_0000_0000 {
      MoreMultiples(0x20_0000_0000_0000, d, Pow2(e));
    }
    assert Binary(q * Pow2(e), 2 * (q / 2), e);
  }

  lemma MinusBinary(n: int, m: int, e: nat)
    requires Binary(n, m, e)
    ensures Binary(-n, -m, e)
  {}

  lemma MinusDouble(n: int)
    requires Double(n)
    ensures Double(-n)
    ensures EvenDouble(n) ==> EvenDouble(-n)
  {
    var m: int, e: nat :| Binary(n, m, e);
    MinusBinary(n, m, e);
    hide Binary;
    if EvenDouble(n) {
      var h: int, f: nat :| Binary(n, 2 * h, f) && (2 * h <= -0x10_0000_0000_0000 || 2 * h >= 0x10_0000_0000_0000);
      MinusBinary(n, 2 * h, f);
      assert Binary(-n, 2 * -h, f);
    }
  }

  /** Main result: an integer becomes the nearest double, ties to even. */
  lemma AsFloatIsNearest(i: int)
    ensures Nearest(i, AsFloat(i))
  {
    if i >= 0 {
      NearestNat(i);
    } else {
      NearestNat(-i);
      assert AsFloat(i) == -AsFloat(-i);
      hide Double, EvenDouble, AsFloat;
      var n := AsFloat(-i);
      MinusDouble(n);
      forall k | Double(k)
        ensures Distance(-n, i) <= Distance(k, i)
        ensures k != -n && Distance(k, i) == Distance(-n, i) ==> EvenDouble(-n)
      {
        MinusDouble(k);
      }
    }
  }

  /** Whole numbers of up to 53 bits are doubles, so they stay. */
  lemma WholeNumbersStay(i: int)
    requires -0x20_0000_0000_0000 <= i <= 0x20_0000_0000_0000
    ensures AsFloat(i) == i
  {
    AsFloatIsNearest(i);
    assert Binary(i, i, 0);
    hide AsFloat;
    assert Double(i);
  }
}
