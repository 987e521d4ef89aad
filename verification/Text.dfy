/** Printing of numbers, and the byte order in which SQL compares text columns. */
module Text {
  import opened Wrappers

  const DIGITS: string := "0123456789"

  function Digit(n: int): (c: char)
    requires 0 <= n < 10
    ensures '0' <= c <= '9' && c as int == '0' as int + n
  {
    DIGITS[n]
  }

  function Pow10(w: nat): (p: nat)
    ensures p >= 1
  {
    if w == 0 then 1 else 10 * Pow10(w - 1)
  }

  /** The last `w` decimal digits of `n`: the text of `{:0w}` when `n` has at most `w` digits. */
  function Pad(w: nat, n: nat): (s: string)
    ensures |s| == w
    ensures forall c :: c in s ==> '0' <= c <= '9'
  {
    if w == 0 then "" else Pad(w - 1, n / 10) + [Digit(n % 10)]
  }

  /** Decimal text without leading zeros. */
  function Dec(n: nat): (s: string)
    ensures |s| >= 1
    ensures forall c :: c in s ==> '0' <= c <= '9'
  {
    if n < 10 then [Digit(n)] else Dec(n / 10) + [Digit(n % 10)]
  }

  /** The text of Rust's `{:04}`: at least four digits. */
  function Dec4(n: nat): (s: string)
    ensures |s| >= 1
    ensures forall c :: c in s ==> '0' <= c <= '9'
  {
    if n < 10000 then Pad(4, n) else Dec(n)
  }

  predicate AllDigits(s: string) {
    forall c :: c in s ==> '0' <= c <= '9'
  }

  function DigitValue(c: char): (n: nat)
    ensures n < 10
  {
    if '0' <= c <= '9' then c as int - '0' as int else 0
  }

  /** The number a digit string denotes. */
  function Value(s: string): nat {
    if s == "" then 0 else 10 * Value(s[..|s| - 1]) + DigitValue(s[|s| - 1])
  }

  lemma {:induction false} ValueOfDec(n: nat)
    ensures Value(Dec(n)) == n
  {
    if n >= 10 {
      ValueOfDec(n / 10);
      assert Dec(n)[..|Dec(n)| - 1] == Dec(n / 10);
    } else {
      assert Dec(n)[..0] == "";
    }
  }

  lemma {:induction false} ValueOfPad(w: nat, n: nat)
    requires n < Pow10(w)
    ensures Value(Pad(w, n)) == n
  {
    if w > 0 {
      ValueOfPad(w - 1, n / 10);
      assert Pad(w, n)[..w - 1] == Pad(w - 1, n / 10);
    }
  }

  lemma ValueOfDec4(n: nat)
    ensures Value(Dec4(n)) == n
  {
    if n < 10000 {
      assert Pow10(4) == 10000;
      ValueOfPad(4, n);
    } else {
      ValueOfDec(n);
    }
  }

  /** Rust's `str::parse` for an unsigned integer of at most `max`: an optional `+`, then digits. */
  function ParseUnsigned(s: string, max: nat): (r: Option<nat>)
    ensures r.Some? ==> r.value <= max
  {
    var digits := if s != "" && s[0] == '+' then s[1..] else s;
    if digits == "" || !AllDigits(digits) || Value(digits) > max then None else Some(Value(digits))
  }

  lemma ParseOfDigits(s: string, max: nat)
    requires s != "" && AllDigits(s) && Value(s) <= max
    ensures ParseUnsigned(s, max) == Some(Value(s))
  {
    assert s[0] in s;
  }

  lemma CancelPrefix(p: string, a: string, b: string)
    requires p + a == p + b
    ensures a == b
  {
    assert a == (p + a)[|p|..] && b == (p + b)[|p|..];
  }

  /** Unicode White_Space, as Rust's `trim` reads it. */
  predicate IsSpace(c: char) {
    var n := c as int;
    9 <= n <= 13 || n == 0x20 || n == 0x85 || n == 0xA0 || n == 0x1680 || 0x2000 <= n <= 0x200A
    || n == 0x2028 || n == 0x2029 || n == 0x202F || n == 0x205F || n == 0x3000
  }

  /** `s.trim().is_empty()` */
  predicate Blank(s: string) {
    forall c :: c in s ==> IsSpace(c)
  }

  /** What stands before and after the first separator, as `split_once` gives it. */
  function SplitOnce<X(==)>(s: seq<X>, sep: X): (r: Option<(seq<X>, seq<X>)>)
    ensures r.Some? ==> s == r.value.0 + [sep] + r.value.1 && sep !in r.value.0
    ensures r.None? <==> sep !in s
  {
    if s == [] then None
    else if s[0] == sep then
      assert s == [] + [sep] + s[1..];
      Some(([], s[1..]))
    else
      match SplitOnce(s[1..], sep)
      case None => assert s == [s[0]] + s[1..]; None
      case Some((a, b)) =>
        assert s == [s[0]] + s[1..];
        Some(([s[0]] + a, b))
  }

  lemma {:induction false} SplitOnceUnique<X>(a: seq<X>, sep: X, b: seq<X>)
    requires sep !in a
    ensures SplitOnce(a + [sep] + b, sep) == Some((a, b))
  {
    var s := a + [sep] + b;
    if a == [] {
      assert s == [sep] + b;
    } else {
      SplitOnceUnique(a[1..], sep, b);
      assert s[0] == a[0] && s[1..] == a[1..] + [sep] + b;
      assert a[0] in a;
      assert [a[0]] + a[1..] == a;
    }
  }

  /** What stands before and after the last separator, as `rsplitn(2, sep)` gives it. */
  function RSplitOnce<X(==)>(s: seq<X>, sep: X): (r: Option<(seq<X>, seq<X>)>)
    ensures r.Some? ==> s == r.value.0 + [sep] + r.value.1 && sep !in r.value.1
    ensures r.None? <==> sep !in s
  {
    if s == [] then None
    else
      var n := |s| - 1;
      assert s == s[..n] + [s[n]];
      if s[n] == sep then
        assert s == s[..n] + [sep] + [];
        Some((s[..n], []))
      else
        match RSplitOnce(s[..n], sep)
        case None => None
        case Some((a, b)) => Some((a, b + [s[n]]))
  }

  lemma {:induction false} RSplitOnceUnique<X>(a: seq<X>, sep: X, b: seq<X>)
    requires sep !in b
    ensures RSplitOnce(a + [sep] + b, sep) == Some((a, b))
  {
    var s := a + [sep] + b;
    if b == [] {
      assert s[..|s| - 1] == a;
    } else {
      var n := |b| - 1;
      RSplitOnceUnique(a, sep, b[..n]);
      assert s[..|s| - 1] == a + [sep] + b[..n];
      assert b[n] in b;
      assert b[..n] + [b[n]] == b;
    }
  }

  // ---------------------------------------------------------------------------
  // Byte order
  // ---------------------------------------------------------------------------

  predicate LexLess(a: string, b: string) {
    if b == "" then false
    else if a == "" then true
    else if a[0] != b[0] then a[0] < b[0]
    else LexLess(a[1..], b[1..])
  }

  /** `a <= b` on a text column. */
  predicate LexAtMost(a: string, b: string) {
    !LexLess(b, a)
  }

  lemma {:induction false} LexPrefix(p: string, a: string, b: string)
    ensures LexLess(p + a, p + b) == LexLess(a, b)
  {
    if p == "" {
      assert p + a == a && p + b == b;
    } else {
      LexPrefix(p[1..], a, b);
      assert (p + a)[1..] == p[1..] + a && (p + b)[1..] == p[1..] + b;
    }
  }

  lemma LexHead(a: string, b: string)
    requires a != "" && b != "" && a[0] != b[0]
    ensures LexLess(a, b) == (a[0] < b[0])
  {
  }

  lemma {:induction false} LexIrreflexive(a: string)
    ensures !LexLess(a, a)
  {
    if a != "" {
      LexIrreflexive(a[1..]);
    }
  }

  lemma {:induction false} LexTotal(a: string, b: string)
    ensures LexLess(a, b) || a == b || LexLess(b, a)
    ensures !(LexLess(a, b) && LexLess(b, a))
  {
    if a != "" && b != "" && a[0] == b[0] {
      LexTotal(a[1..], b[1..]);
      if a[1..] == b[1..] {
        assert a == [a[0]] + a[1..] && b == [b[0]] + b[1..];
      }
    }
  }

  lemma {:induction false} LexTransitive(a: string, b: string, c: string)
    requires LexLess(a, b) && LexLess(b, c)
    ensures LexLess(a, c)
  {
    if a != "" && a[0] == b[0] && b[0] == c[0] {
      LexTransitive(a[1..], b[1..], c[1..]);
    }
  }

  /** Equal-width numbers compare as numbers; only when they agree does the rest decide. */
  lemma {:induction false} LexPad(w: nat, a: nat, b: nat, x: string, y: string)
    requires a < Pow10(w) && b < Pow10(w)
    ensures LexLess(Pad(w, a) + x, Pad(w, b) + y) == (a < b || (a == b && LexLess(x, y)))
  {
    if w == 0 {
      assert Pad(w, a) + x == x && Pad(w, b) + y == y;
    } else {
      var da, db := [Digit(a % 10)], [Digit(b % 10)];
      assert Pad(w, a) + x == Pad(w - 1, a / 10) + (da + x);
      assert Pad(w, b) + y == Pad(w - 1, b / 10) + (db + y);
      LexPad(w - 1, a / 10, b / 10, da + x, db + y);
      if a % 10 == b % 10 {
        LexPrefix(da, x, y);
      } else {
        LexHead(da + x, db + y);
      }
    }
  }
}
