/** Well-formed UTF-8 (section 4 of RFC 3629): what Rust's `str` holds and `from_utf8` checks. */
module Utf8 {
  import opened Base64Url

  predicate Between(n: int, low: int, high: int) {
    low <= n <= high
  }

  predicate IsTail(n: int) {
    Between(n, 0x80, 0xBF)
  }

  /** The second byte a three- or four-byte sequence may have: no overlong forms, surrogates or values past U+10FFFF. */
  predicate IsSecond(first: int, second: int) {
    if first == 0xE0 then Between(second, 0xA0, 0xBF)
    else if first == 0xED then Between(second, 0x80, 0x9F)
    else if first == 0xF0 then Between(second, 0x90, 0xBF)
    else if first == 0xF4 then Between(second, 0x80, 0x8F)
    else IsTail(second)
  }

  /** The length of the character at the front, or 0 when the bytes there are not one. */
  function FirstLength(s: seq<Byte>): (n: nat)
    ensures n <= |s|
  {
    if s == [] then 0
    else if s[0] < 0x80 then 1
    else if Between(s[0], 0xC2, 0xDF) then (if |s| >= 2 && IsTail(s[1]) then 2 else 0)
    else if Between(s[0], 0xE0, 0xEF) then (if |s| >= 3 && IsSecond(s[0], s[1]) && IsTail(s[2]) then 3 else 0)
    else if Between(s[0], 0xF0, 0xF4) then
      (if |s| >= 4 && IsSecond(s[0], s[1]) && IsTail(s[2]) && IsTail(s[3]) then 4 else 0)
    else 0
  }

  predicate WellFormed(s: seq<Byte>) {
    s == [] || (FirstLength(s) > 0 && WellFormed(s[FirstLength(s)..]))
  }

  lemma {:induction false} WellFormedAppend(a: seq<Byte>, b: seq<Byte>)
    requires WellFormed(a) && WellFormed(b)
    ensures WellFormed(a + b)
  {
    if a == [] {
      assert a + b == b;
    } else {
      var n := FirstLength(a);
      assert FirstLength(a + b) == n;
      assert (a + b)[n..] == a[n..] + b;
      WellFormedAppend(a[n..], b);
    }
  }

  lemma {:induction false} AsciiIsWellFormed(s: seq<Byte>)
    requires forall i :: 0 <= i < |s| ==> s[i] < 0x80
    ensures WellFormed(s)
  {
    if s != [] {
      AsciiIsWellFormed(s[1..]);
    }
  }
}
