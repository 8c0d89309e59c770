// Text as bytes: the well-formed byte sequences are exactly the encodings of strings.
module Utf8 {
  import opened Bytes

  /** The encoding of one scalar value (RFC 3629, section 3). */
  ghost function OfChar(c: char): (s: Bytes)
    ensures s != []
  {
    var n := c as int;
    if n < 0x80 then [n as byte]
    else if n < 0x800 then [(0xC0 + n / 64) as byte, (0x80 + n % 64) as byte]
    else if n < 0x10000 then [(0xE0 + n / 4096) as byte, (0x80 + n / 64 % 64) as byte, (0x80 + n % 64) as byte]
    else [(0xF0 + n / 262144) as byte, (0x80 + n / 4096 % 64) as byte, (0x80 + n / 64 % 64) as byte, (0x80 + n % 64) as byte]
  }

  ghost function OfString(cs: string): Bytes {
    if cs == "" then [] else OfChar(cs[0]) + OfString(cs[1..])
  }

  lemma FirstOfTwo(c: char, rest: Bytes)
    requires c as int < 0x800
    ensures ValidUtf8(OfChar(c) + rest) == ValidUtf8(rest)
  {
    var s := OfChar(c) + rest;
    assert s[|OfChar(c)|..] == rest;
  }

  lemma FirstOfMore(c: char, rest: Bytes)
    requires c as int >= 0x800
    ensures ValidUtf8(OfChar(c) + rest) == ValidUtf8(rest)
  {
    var s := OfChar(c) + rest;
    assert s[|OfChar(c)|..] == rest;
  }

  lemma {:induction false} EncodedIsValid(cs: string)
    ensures ValidUtf8(OfString(cs))
  {
    if cs != "" {
      EncodedIsValid(cs[1..]);
      hide ValidUtf8, OfChar;
      if cs[0] as int < 0x800 {
        FirstOfTwo(cs[0], OfString(cs[1..]));
      } else {
        FirstOfMore(cs[0], OfString(cs[1..]));
      }
    }
  }

  lemma FirstChar(s: Bytes) returns (c: char, rest: Bytes)
    requires s != [] && ValidUtf8(s)
    ensures s == OfChar(c) + rest && ValidUtf8(rest)
  {
    if s[0] < 0x80 {
      c, rest := s[0] as int as char, s[1..];
    } else if s[0] <= 0xDF {
      c, rest := ((s[0] - 0xC0) as int * 64 + (s[1] - 0x80) as int) as char, s[2..];
    } else if s[0] <= 0xEF {
      rest := s[3..];
      c := ThreeBytes(s);
      assert s == s[..3] + rest;
    } else {
      rest := s[4..];
      c := FourBytes(s);
      assert s == s[..4] + rest;
    }
  }

  lemma ThreeBytes(s: Bytes) returns (c: char)
    requires |s| >= 3 && 0xE0 <= s[0] <= 0xEF && Continuation(s[1]) && Continuation(s[2])
    requires (s[0] == 0xE0 ==> s[1] >= 0xA0) && (s[0] == 0xED ==> s[1] <= 0x9F)
    ensures s[..3] == OfChar(c)
  {
    var (x, y, z) := ((s[0] - 0xE0) as int, (s[1] - 0x80) as int, (s[2] - 0x80) as int);
    var n := x * 4096 + y * 64 + z;
    assert n / 4096 == x && n / 64 % 64 == y && n % 64 == z;
    assert 0x800 <= n < 0x10000 && !(0xD800 <= n <= 0xDFFF);
    c := n as char;
  }

  lemma Quotients(w: nat, x: nat, y: nat, z: nat)
    requires w <= 4 && x < 64 && y < 64 && z < 64
    ensures var n := w * 262144 + x * 4096 + y * 64 + z;
      n / 262144 == w && n / 4096 % 64 == x && n / 64 % 64 == y && n % 64 == z
  {
    var n := w * 262144 + x * 4096 + y * 64 + z;
    assert n / 64 == w * 4096 + x * 64 + y;
    assert n / 4096 == w * 64 + x;
  }

  lemma FourBytes(s: Bytes) returns (c: char)
    requires |s| >= 4 && 0xF0 <= s[0] <= 0xF4 && Continuation(s[1]) && Continuation(s[2]) && Continuation(s[3])
    requires (s[0] == 0xF0 ==> s[1] >= 0x90) && (s[0] == 0xF4 ==> s[1] <= 0x8F)
    ensures s[..4] == OfChar(c)
  {
    var (w, x, y, z) := ((s[0] - 0xF0) as int, (s[1] - 0x80) as int, (s[2] - 0x80) as int, (s[3] - 0x80) as int);
    var n := w * 262144 + x * 4096 + y * 64 + z;
    Quotients(w, x, y, z);
    assert 0x10000 <= n < 0x110000;
    c := n as char;
  }

  lemma {:induction false} ValidIsEncoded(s: Bytes) returns (cs: string)
    requires ValidUtf8(s)
    ensures OfString(cs) == s
  {
    if s == [] {
      cs := "";
    } else {
      var c, rest := FirstChar(s);
      hide ValidUtf8, OfChar;
      var more := ValidIsEncoded(rest);
      cs := [c] + more;
    }
  }

  /** Main result: the check on text accepts exactly what some string is encoded as. */
  lemma ValidExactly(s: Bytes)
    ensures ValidUtf8(s) <==> exists cs :: OfString(cs) == s
  {
    if ValidUtf8(s) {
      var cs := ValidIsEncoded(s);
    }
    if cs :| OfString(cs) == s {
      EncodedIsValid(cs);
    }
  }
}
