/**
  Well-formed UTF-8 as section 4 of RFC 3629 defines it (no overlong forms, no
  surrogates, nothing above U+10FFFF): the check Rust's `str::from_utf8` makes.
*/
module Utf8 {
  newtype byte = x: int | 0 <= x < 256

  predicate InRange(b: byte, lo: int, hi: int)
  {
    lo <= b as int <= hi
  }

  /** A continuation byte, 10xxxxxx. */
  predicate Tail(b: byte)
  {
    InRange(b, 0x80, 0xBF)
  }

  /** The length of the well-formed character that starts `s`, or 0 when `s` does not start with one. */
  function LeadWidth(s: seq<byte>): (n: nat)
    requires s != []
    ensures n <= |s| && n <= 4
    ensures n == 1 <==> s[0] < 0x80
  {
    var b := s[0];
    if b < 0x80 then 1
    else if InRange(b, 0xC2, 0xDF) then
      if |s| >= 2 && Tail(s[1]) then 2 else 0
    else if b == 0xE0 then
      if |s| >= 3 && InRange(s[1], 0xA0, 0xBF) && Tail(s[2]) then 3 else 0
    else if InRange(b, 0xE1, 0xEC) || InRange(b, 0xEE, 0xEF) then
      if |s| >= 3 && Tail(s[1]) && Tail(s[2]) then 3 else 0
    else if b == 0xED then
      if |s| >= 3 && InRange(s[1], 0x80, 0x9F) && Tail(s[2]) then 3 else 0
    else if b == 0xF0 then
      if |s| >= 4 && InRange(s[1], 0x90, 0xBF) && Tail(s[2]) && Tail(s[3]) then 4 else 0
    else if InRange(b, 0xF1, 0xF3) then
      if |s| >= 4 && Tail(s[1]) && Tail(s[2]) && Tail(s[3]) then 4 else 0
    else if b == 0xF4 then
      if |s| >= 4 && InRange(s[1], 0x80, 0x8F) && Tail(s[2]) && Tail(s[3]) then 4 else 0
    else 0
  }

  /** `s` is a sequence of well-formed characters. */
  predicate ValidUtf8(s: seq<byte>)
    decreases |s|
  {
    s == [] || (LeadWidth(s) > 0 && ValidUtf8(s[LeadWidth(s)..]))
  }

  /** Every byte is ASCII. */
  predicate IsAscii(s: seq<byte>)
  {
    forall i | 0 <= i < |s| :: s[i] < 0x80
  }

  /** ASCII text is valid UTF-8. */
  lemma {:induction false} AsciiIsValid(s: seq<byte>)
    requires IsAscii(s)
    ensures ValidUtf8(s)
    decreases |s|
  {
    if s != [] {
      assert IsAscii(s[1..]);
      AsciiIsValid(s[1..]);
    }
  }

  /**
    Cutting valid UTF-8 after an ASCII prefix leaves valid UTF-8: an ASCII byte
    is always a whole character, so the cut falls on a character boundary.
  */
  lemma {:induction false} SuffixAfterAsciiIsValid(s: seq<byte>, k: nat)
    requires k <= |s| && ValidUtf8(s) && IsAscii(s[..k])
    ensures ValidUtf8(s[k..])
    decreases k
  {
    if k > 0 {
      assert s[0] == s[..k][0];
      assert s[1..][..k - 1] == s[..k][1..];
      assert s[1..][k - 1..] == s[k..];
      SuffixAfterAsciiIsValid(s[1..], k - 1);
    }
  }
}
