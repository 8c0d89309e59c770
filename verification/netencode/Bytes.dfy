// Byte strings, decimal notation and UTF-8, as Rust's standard library gives them
// to the netencode codec.
module Bytes {

  newtype byte = x: int | 0 <= x < 256

  type Bytes = seq<byte>

  const USIZE_MAX: nat := 0xFFFF_FFFF_FFFF_FFFF

  predicate IsDigit(b: byte) {
    '0' as byte <= b <= '9' as byte
  }

  predicate AllDigits(s: Bytes) {
    forall i :: 0 <= i < |s| ==> IsDigit(s[i])
  }

  function DigitValue(b: byte): nat
    requires IsDigit(b)
  {
    (b - '0' as byte) as int
  }

  /** What `{}` prints for an unsigned integer: decimal, no leading zero. */
  function Show(n: nat): (s: Bytes)
    ensures 0 < |s| && AllDigits(s)
  {
    var last := '0' as byte + (n % 10) as byte;
    if n < 10 then [last] else Show(n / 10) + [last]
  }

  /** What `str::parse` reads from a run of digits, before its range check. */
  function Read(ds: Bytes): nat
    requires AllDigits(ds)
  {
    if ds == [] then 0 else 10 * Read(ds[..|ds| - 1]) + DigitValue(ds[|ds| - 1])
  }

  lemma {:induction false} ReadShow(n: nat)
    ensures Read(Show(n)) == n
  {
    if n >= 10 {
      ReadShow(n / 10);
      assert Show(n)[..|Show(n)| - 1] == Show(n / 10);
    }
  }

  /** Printing is never longer than any digit string that reads as the number. */
  lemma {:induction false} ShowIsShortest(ds: Bytes)
    requires AllDigits(ds) && ds != []
    ensures |Show(Read(ds))| <= |ds|
  {
    var front := ds[..|ds| - 1];
    if front != [] {
      ShowIsShortest(front);
      assert Read(ds) / 10 == Read(front);
    }
  }

  predicate Continuation(b: byte) {
    0x80 <= b <= 0xBF
  }

  /** The well-formed byte sequences of RFC 3629, section 4: what `str::from_utf8` accepts. */
  predicate ValidUtf8(s: Bytes) {
    if s == [] then true
    else if s[0] < 0x80 then ValidUtf8(s[1..])
    else if 0xC2 <= s[0] <= 0xDF then
      |s| >= 2 && Continuation(s[1]) && ValidUtf8(s[2..])
    else if 0xE0 <= s[0] <= 0xEF then
      && |s| >= 3 && Continuation(s[1]) && Continuation(s[2])
      && (s[0] == 0xE0 ==> s[1] >= 0xA0)
      && (s[0] == 0xED ==> s[1] <= 0x9F)
      && ValidUtf8(s[3..])
    else if 0xF0 <= s[0] <= 0xF4 then
      && |s| >= 4 && Continuation(s[1]) && Continuation(s[2]) && Continuation(s[3])
      && (s[0] == 0xF0 ==> s[1] >= 0x90)
      && (s[0] == 0xF4 ==> s[1] <= 0x8F)
      && ValidUtf8(s[4..])
    else false
  }
}
