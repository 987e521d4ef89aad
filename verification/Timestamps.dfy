/**
 The stored text of dates and instants, and the order SQL sees on it
 (crates/store/src/repo/mod.rs, repo/schedule.rs, repo/reminder.rs; section 5.1 of RFC 3339).

 `NaiveDate` prints four digits for years 0 to 9999 and an explicit sign otherwise.
 `to_rfc3339` prints 0, 3, 6 or 9 fraction digits, whichever is exact, and ends in `+00:00`.
 */
module Timestamps {
  import opened Calendar
  import opened Text

  function YearText(year: int): (s: string)
    ensures s != ""
  {
    if 0 <= year <= 9999 then Pad(4, year)
    else if year < 0 then "-" + Dec4(-year)
    else "+" + Dec4(year)
  }

  /** The text of a `NaiveDate`: `YYYY-MM-DD`. */
  function DateText(d: Date): (s: string)
    requires ValidDate(d)
    ensures s != ""
  {
    YearText(d.year) + ("-" + (Pad(2, d.month) + ("-" + Pad(2, d.day))))
  }

  /** The fraction of a second with as many digit groups as it needs. */
  function Fraction(nanos: nat): string {
    if nanos == 0 then ""
    else if nanos % 1_000_000 == 0 then "." + Pad(3, nanos / 1_000_000)
    else if nanos % 1000 == 0 then "." + Pad(6, nanos / 1000)
    else "." + Pad(9, nanos)
  }

  function ClockText(second: nat): string {
    Pad(2, second / 3600) + (":" + (Pad(2, second / 60 % 60) + (":" + Pad(2, second % 60))))
  }

  /** `ts_to_string`: the RFC 3339 text every timestamp column holds. */
  function StampText(s: Stamp): string
    requires ValidStamp(s)
  {
    DateText(s.date) + ("T" + (ClockText(s.second) + (Fraction(s.nanos) + "+00:00")))
  }

  // ---------------------------------------------------------------------------
  // Dates
  // ---------------------------------------------------------------------------

  lemma DateTextOrderThen(a: Date, b: Date, x: string, y: string)
    requires ValidDate(a) && ValidDate(b) && 0 <= a.year <= 9999 && 0 <= b.year <= 9999
    ensures LexLess(DateText(a) + x, DateText(b) + y) == (DateBefore(a, b) || (a == b && LexLess(x, y)))
  {
    assert Pow10(4) == 10000 && Pow10(2) == 100;
    var dayA, dayB := Pad(2, a.day) + x, Pad(2, b.day) + y;
    var monthA, monthB := Pad(2, a.month) + ("-" + dayA), Pad(2, b.month) + ("-" + dayB);
    assert DateText(a) + x == Pad(4, a.year) + ("-" + monthA);
    assert DateText(b) + y == Pad(4, b.year) + ("-" + monthB);
    LexPad(4, a.year, b.year, "-" + monthA, "-" + monthB);
    LexPrefix("-", monthA, monthB);
    LexPad(2, a.month, b.month, "-" + dayA, "-" + dayB);
    LexPrefix("-", dayA, dayB);
    LexPad(2, a.day, b.day, x, y);
  }

  /** On dates of years 0 to 9999 the text order of a date column is the date order. */
  lemma DateTextOrder(a: Date, b: Date)
    requires ValidDate(a) && ValidDate(b) && 0 <= a.year <= 9999 && 0 <= b.year <= 9999
    ensures LexLess(DateText(a), DateText(b)) <==> DateBefore(a, b)
    ensures LexAtMost(DateText(a), DateText(b)) <==> DateAtMost(a, b)
    ensures DateText(a) == DateText(b) <==> a == b
  {
    DateTextOrderThen(a, b, "", "");
    DateTextOrderThen(b, a, "", "");
    assert DateText(a) + "" == DateText(a) && DateText(b) + "" == DateText(b);
    LexIrreflexive(DateText(a));
  }

  /** Past year 9999 the sign sorts below every digit, so a later date counts as due already. */
  lemma DateTextOrderBreaksAfter9999(a: Date, b: Date)
    requires ValidDate(a) && ValidDate(b) && 0 <= a.year <= 9999 && b.year > 9999
    ensures DateBefore(a, b) && LexLess(DateText(b), DateText(a))
  {
    assert DateText(b)[0] == '+' && DateText(a)[0] == Pad(4, a.year)[0];
    assert Pad(4, a.year)[0] in Pad(4, a.year);
    LexHead(DateText(b), DateText(a));
  }

  // ---------------------------------------------------------------------------
  // Fractions of a second
  // ---------------------------------------------------------------------------

  function Milli(nanos: nat): nat { nanos / 1_000_000 }
  function Micro(nanos: nat): nat { nanos / 1000 % 1000 }
  function Nano(nanos: nat): nat { nanos % 1000 }

  /** Three digits of nanoseconds, or nothing when they are zero, then the offset. */
  function NanoTail(nano: nat): (s: string)
    ensures s != ""
  {
    if nano == 0 then "+00:00" else Pad(3, nano) + "+00:00"
  }

  function MicroTail(micro: nat, nano: nat): (s: string)
    ensures s != ""
  {
    if micro == 0 && nano == 0 then "+00:00" else Pad(3, micro) + NanoTail(nano)
  }

  lemma ThreeDigits(n: nat)
    ensures n / 10 / 10 == n / 100 && n / 10 / 10 / 10 == n / 1000
    ensures var m := n % 1000; m % 10 == n % 10 && m / 10 % 10 == n / 10 % 10 && m / 10 / 10 == n / 100 % 10
  {
  }

  lemma PadSplit(w: nat, n: nat)
    ensures Pad(w + 3, n) == Pad(w, n / 1000) + Pad(3, n % 1000)
  {
    ThreeDigits(n);
    var m, a, b, c := n % 1000, Digit(n % 10), Digit(n / 10 % 10), Digit(n / 10 / 10 % 10);
    calc {
      Pad(w + 3, n);
      Pad(w + 2, n / 10) + [a];
      Pad(w + 1, n / 10 / 10) + [b] + [a];
      Pad(w, n / 10 / 10 / 10) + [c] + [b] + [a];
      Pad(w, n / 1000) + [c, b, a];
    }
    calc {
      Pad(3, m);
      Pad(2, m / 10) + [a];
      Pad(1, m / 10 / 10) + [b] + [a];
      Pad(0, m / 10 / 10 / 10) + [c] + [b] + [a];
      [c, b, a];
    }
  }

  lemma NanoGroups(nanos: nat)
    requires nanos < 1_000_000_000
    ensures nanos == Milli(nanos) * 1_000_000 + Micro(nanos) * 1000 + Nano(nanos)
    ensures nanos / 1000 == Milli(nanos) * 1000 + Micro(nanos)
    ensures nanos / 1000 / 1000 == Milli(nanos) < 1000
    ensures nanos % 1_000_000 == 0 <==> Micro(nanos) == 0 && Nano(nanos) == 0
  {
  }

  lemma FractionByGroups(nanos: nat)
    requires 0 < nanos < 1_000_000_000
    ensures Fraction(nanos) + "+00:00" == "." + (Pad(3, Milli(nanos)) + MicroTail(Micro(nanos), Nano(nanos)))
  {
    NanoGroups(nanos);
    var milli, micro, nano := Milli(nanos), Micro(nanos), Nano(nanos);
    if micro == 0 && nano == 0 {
    } else if nano == 0 {
      PadSplit(3, nanos / 1000);
      Regroup(Pad(3, milli), Pad(3, micro), "", "+00:00");
    } else {
      PadSplit(6, nanos);
      PadSplit(3, nanos / 1000);
      Regroup(Pad(3, milli), Pad(3, micro), Pad(3, nano), "+00:00");
    }
  }

  lemma Regroup(a: string, b: string, c: string, d: string)
    ensures "." + (a + b) + d == "." + (a + (b + d))
    ensures "." + ((a + b) + c) + d == "." + (a + (b + (c + d)))
  {
  }

  lemma NanoTailOrder(a: nat, b: nat)
    requires a < 1000 && b < 1000
    ensures LexLess(NanoTail(a), NanoTail(b)) == (a < b)
  {
    assert Pow10(3) == 1000;
    LexIrreflexive("+00:00");
    if a != 0 && b != 0 {
      LexPad(3, a, b, "+00:00", "+00:00");
    } else if a != b {
      assert NanoTail(a)[0] in NanoTail(a)[..1] && NanoTail(b)[0] in NanoTail(b)[..1];
      assert a != 0 ==> NanoTail(a)[0] == Pad(3, a)[0] && Pad(3, a)[0] in Pad(3, a);
      assert b != 0 ==> NanoTail(b)[0] == Pad(3, b)[0] && Pad(3, b)[0] in Pad(3, b);
      LexHead(NanoTail(a), NanoTail(b));
    }
  }

  lemma MicroTailOrder(a: nat, a': nat, b: nat, b': nat)
    requires a < 1000 && a' < 1000 && b < 1000 && b' < 1000
    ensures LexLess(MicroTail(a, a'), MicroTail(b, b')) == (a < b || (a == b && a' < b'))
  {
    assert Pow10(3) == 1000;
    LexIrreflexive("+00:00");
    var zeroA, zeroB := a == 0 && a' == 0, b == 0 && b' == 0;
    if !zeroA && !zeroB {
      LexPad(3, a, b, NanoTail(a'), NanoTail(b'));
      NanoTailOrder(a', b');
    } else if zeroA != zeroB {
      assert !zeroA ==> MicroTail(a, a')[0] == Pad(3, a)[0] && Pad(3, a)[0] in Pad(3, a);
      assert !zeroB ==> MicroTail(b, b')[0] == Pad(3, b)[0] && Pad(3, b)[0] in Pad(3, b);
      LexHead(MicroTail(a, a'), MicroTail(b, b'));
    }
  }

  /** Comparing numbers written as a high and a low part. */
  lemma HighLow(k: nat, a: nat, h: nat, l: nat, b: nat, h': nat, l': nat)
    requires k == 1000 || k == 60
    requires a == h * k + l && l < k && b == h' * k + l' && l' < k
    ensures a < b <==> h < h' || (h == h' && l < l')
  {
    if k == 1000 {
      assert a == 1000 * h + l && b == 1000 * h' + l';
    } else {
      assert a == 60 * h + l && b == 60 * h' + l';
    }
  }

  lemma GroupOrder(a: nat, b: nat)
    requires a < 1_000_000_000 && b < 1_000_000_000
    ensures a < b <==> Milli(a) < Milli(b) || (Milli(a) == Milli(b) &&
                       (Micro(a) < Micro(b) || (Micro(a) == Micro(b) && Nano(a) < Nano(b))))
  {
    HighLow(1000, a, a / 1000, Nano(a), b, b / 1000, Nano(b));
    NanoGroups(a);
    NanoGroups(b);
    HighLow(1000, a / 1000, Milli(a), Micro(a), b / 1000, Milli(b), Micro(b));
  }

  lemma FractionOrder(a: nat, b: nat)
    requires a < 1_000_000_000 && b < 1_000_000_000
    ensures LexLess(Fraction(a) + "+00:00", Fraction(b) + "+00:00") == (a < b)
  {
    LexIrreflexive("+00:00");
    assert Fraction(0) + "+00:00" == "+00:00";
    if a != 0 && b != 0 {
      assert Pow10(3) == 1000;
      FractionByGroups(a);
      FractionByGroups(b);
      var x, y := MicroTail(Micro(a), Nano(a)), MicroTail(Micro(b), Nano(b));
      LexPrefix(".", Pad(3, Milli(a)) + x, Pad(3, Milli(b)) + y);
      LexPad(3, Milli(a), Milli(b), x, y);
      MicroTailOrder(Micro(a), Nano(a), Micro(b), Nano(b));
      NanoGroups(a);
      NanoGroups(b);
      GroupOrder(a, b);
    } else if a != b {
      assert a != 0 ==> Fraction(a)[0] == '.';
      assert b != 0 ==> Fraction(b)[0] == '.';
      LexHead(Fraction(a) + "+00:00", Fraction(b) + "+00:00");
    }
  }

  // ---------------------------------------------------------------------------
  // Instants
  // ---------------------------------------------------------------------------

  lemma ClockParts(a: nat)
    ensures a / 60 == a / 3600 * 60 + a / 60 % 60 && a == a / 60 * 60 + a % 60
  {
  }

  lemma ClockOrder(a: nat, b: nat)
    ensures a < b <==> a / 3600 < b / 3600 || (a / 3600 == b / 3600 &&
                       (a / 60 % 60 < b / 60 % 60 || (a / 60 % 60 == b / 60 % 60 && a % 60 < b % 60)))
  {
    ClockParts(a);
    ClockParts(b);
    HighLow(60, a / 60, a / 3600, a / 60 % 60, b / 60, b / 3600, b / 60 % 60);
    HighLow(60, a, a / 60, a % 60, b, b / 60, b % 60);
  }

  lemma PartsOrderThen(h: nat, m: nat, t: string, h': nat, m': nat, t': string)
    requires h < 100 && m < 100 && h' < 100 && m' < 100
    ensures LexLess(Pad(2, h) + (":" + (Pad(2, m) + (":" + t))), Pad(2, h') + (":" + (Pad(2, m') + (":" + t'))))
         == (h < h' || (h == h' && (m < m' || (m == m' && LexLess(t, t')))))
  {
    hide LexLess, Pad;
    assert Pow10(2) == 100;
    var x, y := Pad(2, m) + (":" + t), Pad(2, m') + (":" + t');
    LexPad(2, h, h', ":" + x, ":" + y);
    LexPrefix(":", x, y);
    LexPad(2, m, m', ":" + t, ":" + t');
    LexPrefix(":", t, t');
  }

  lemma ClockTextOrderThen(a: nat, b: nat, x: string, y: string)
    requires a < 86400 && b < 86400
    ensures LexLess(ClockText(a) + x, ClockText(b) + y) == (a < b || (a == b && LexLess(x, y)))
  {
    hide LexLess, Pad;
    assert Pow10(2) == 100;
    var secA, secB := Pad(2, a % 60) + x, Pad(2, b % 60) + y;
    assert ClockText(a) + x == Pad(2, a / 3600) + (":" + (Pad(2, a / 60 % 60) + (":" + secA)));
    assert ClockText(b) + y == Pad(2, b / 3600) + (":" + (Pad(2, b / 60 % 60) + (":" + secB)));
    PartsOrderThen(a / 3600, a / 60 % 60, secA, b / 3600, b / 60 % 60, secB);
    LexPad(2, a % 60, b % 60, x, y);
    ClockOrder(a, b);
  }

  lemma StampTextOrderThen(a: Stamp, b: Stamp, x: string, y: string)
    requires ValidStamp(a) && ValidStamp(b)
    ensures LexLess(DateText(a.date) + ("T" + (ClockText(a.second) + x)),
                    DateText(b.date) + ("T" + (ClockText(b.second) + y)))
         == (DateBefore(a.date, b.date) ||
             (a.date == b.date && (a.second < b.second || (a.second == b.second && LexLess(x, y)))))
  {
    var restA, restB := ClockText(a.second) + x, ClockText(b.second) + y;
    DateTextOrderThen(a.date, b.date, "T" + restA, "T" + restB);
    LexPrefix("T", restA, restB);
    ClockTextOrderThen(a.second, b.second, x, y);
  }

  /** The text order of a timestamp column is the order of the instants, whatever the fraction widths. */
  lemma StampTextOrder(a: Stamp, b: Stamp)
    requires ValidStamp(a) && ValidStamp(b)
    ensures LexLess(StampText(a), StampText(b)) <==> StampBefore(a, b)
    ensures LexAtMost(StampText(a), StampText(b)) <==> a == b || StampBefore(a, b)
    ensures StampText(a) == StampText(b) <==> a == b
  {
    StampTextOrderThen(a, b, Fraction(a.nanos) + "+00:00", Fraction(b.nanos) + "+00:00");
    StampTextOrderThen(b, a, Fraction(b.nanos) + "+00:00", Fraction(a.nanos) + "+00:00");
    FractionOrder(a.nanos, b.nanos);
    FractionOrder(b.nanos, a.nanos);
    LexIrreflexive(StampText(a));
  }

  // ---------------------------------------------------------------------------
  // The year window of the number allocator
  // ---------------------------------------------------------------------------

  /** The bound `{year:04}-01-01T00:00:00Z`. It ends in `Z`, unlike every stored stamp. */
  function YearBound(year: nat): string {
    Dec4(year) + "-01-01T00:00:00Z"
  }

  /** The stamp passes `issued_at >= from AND issued_at < to` for this year. */
  predicate InYearWindow(s: Stamp, year: nat)
    requires ValidStamp(s)
  {
    LexAtMost(YearBound(year), StampText(s)) && LexLess(StampText(s), YearBound(year + 1))
  }

  lemma TwoDigits()
    ensures Pad(2, 1) == "01" && ClockText(0) == "00:00:00"
  {
    var none := 0;
    assert Pad(1, none) == Pad(0, 0) + [Digit(0)];
    assert Pad(2, none + 1) == Pad(1, none) + [Digit(1)];
    assert Pad(2, none) == Pad(1, none) + [Digit(0)];
  }

  lemma YearBoundParts(year: nat)
    requires year <= 9999
    ensures YearBound(year) == DateText(Date(year, 1, 1)) + ("T" + (ClockText(0) + "Z"))
  {
    TwoDigits();
    assert DateText(Date(year, 1, 1)) == Pad(4, year) + "-01-01";
    assert YearBound(year) == Pad(4, year) + ("-01-01" + "T00:00:00Z");
  }

  /** A stored stamp reaches the bound only from the second second of the year on. */
  lemma YearBoundOrder(s: Stamp, year: nat)
    requires ValidStamp(s) && year <= 9999
    ensures LexAtMost(YearBound(year), StampText(s))
       <==> s.date.year >= year && !(s.date.year == year && InFirstSecond(s))
  {
    hide Pad, Dec4, DateText, ClockText;
    YearBoundParts(year);
    var tail := Fraction(s.nanos) + "+00:00";
    StampTextOrderThen(s, YearStart(year), tail, "Z");
    LexHead(tail, "Z");
    assert ValidStamp(YearStart(year));
  }

  /**
   The window is the calendar year shifted by one second: it misses the first second of its own
   year and takes in the first second of the next.
   */
  lemma YearWindowIsShifted(s: Stamp, year: nat)
    requires ValidStamp(s) && year < 9999
    ensures InYearWindow(s, year)
       <==> (s.date.year == year && !InFirstSecond(s)) || (s.date.year == year + 1 && InFirstSecond(s))
  {
    hide LexLess, StampText, YearBound;
    YearBoundOrder(s, year);
    YearBoundOrder(s, year + 1);
  }

  /** In year 9999 the upper bound gains a fifth digit and the window is empty. */
  lemma YearWindow9999IsEmpty(s: Stamp)
    requires ValidStamp(s)
    ensures !InYearWindow(s, 9999)
  {
    YearBoundOrder(s, 9999);
    if s.date.year == 9999 {
      assert Pow10(4) == 10000;
      FirstDigitOfNines(4);
      FirstDigitOfPower(4);
      assert StampText(s)[0] == Pad(4, 9999)[0];
      LexHead(StampText(s), YearBound(10000));
    }
  }

  lemma {:induction false} FirstDigitOfNines(w: nat)
    requires w > 0
    ensures Pad(w, Pow10(w) - 1)[0] == '9'
  {
    if w > 1 {
      FirstDigitOfNines(w - 1);
      assert (Pow10(w) - 1) / 10 == Pow10(w - 1) - 1;
    } else {
      assert Pow10(1) == 10 && Pad(1, 9) == Pad(0, 0) + [Digit(9)];
    }
  }

  lemma {:induction false} FirstDigitOfPower(w: nat)
    ensures Dec(Pow10(w))[0] == '1'
  {
    if w > 0 {
      var p := Pow10(w - 1);
      FirstDigitOfPower(w - 1);
      assert 10 * p / 10 == p && 10 * p % 10 == 0;
      assert Dec(10 * p) == Dec(p) + [Digit(0)];
    }
  }
}
