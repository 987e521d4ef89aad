/**
 The number allocators `INV-YYYY-NNNN` and `CN-YYYY-NNNN`
 (crates/commands/src/issue.rs, crates/commands/src/credit.rs).
 */
module Numbering {
  import opened Wrappers
  import opened Calendar
  import opened Text
  import opened Timestamps

  /** The two columns the allocators touch. */
  datatype Numbered = Numbered(number: Option<string>, issuedAt: Option<Instant>)

  function NumberText(prefix: string, year: nat, n: nat): string {
    (prefix + "-") + (Dec4(year) + "-" + Dec4(n))
  }

  /** The rows `COUNT(*)` counts for a year. */
  function Window(rows: seq<Numbered>, year: nat): set<nat> {
    set i | 0 <= i < |rows| && rows[i].issuedAt.Some? && InYearWindow(rows[i].issuedAt.value, year)
  }

  /** `format!("{prefix}-{year:04}-{:04}", count + 1)` for an issue at this instant. */
  function NextNumber(prefix: string, rows: seq<Numbered>, now: Instant): string {
    NumberText(prefix, now.date.year, |Window(rows, now.date.year)| + 1)
  }

  /** The UNIQUE constraint on the number column rejects a number another row holds. */
  predicate Taken(rows: seq<Numbered>, number: string) {
    exists i :: 0 <= i < |rows| && rows[i].number == Some(number)
  }

  // ---------------------------------------------------------------------------
  // What the window really counts
  // ---------------------------------------------------------------------------

  function IssuedIn(rows: seq<Numbered>, year: int): set<nat> {
    set i | 0 <= i < |rows| && rows[i].issuedAt.Some? && rows[i].issuedAt.value.date.year == year
  }

  /** Issued in the first UTC second of the year. */
  function AtMidnight(rows: seq<Numbered>, year: int): set<nat> {
    set i | 0 <= i < |rows| && rows[i].issuedAt.Some? && rows[i].issuedAt.value.date.year == year
            && InFirstSecond(rows[i].issuedAt.value)
  }

  /** The count drops the first second of its own year and gains that of the next. */
  lemma WindowCount(rows: seq<Numbered>, year: nat)
    requires year < 9999
    ensures |Window(rows, year)| == |IssuedIn(rows, year)| - |AtMidnight(rows, year)| + |AtMidnight(rows, year + 1)|
  {
    var all, early, next := IssuedIn(rows, year), AtMidnight(rows, year), AtMidnight(rows, year + 1);
    forall i
      ensures i in Window(rows, year) <==> i in (all - early) + next
    {
      if 0 <= i < |rows| && rows[i].issuedAt.Some? {
        YearWindowIsShifted(rows[i].issuedAt.value, year);
      }
    }
    assert Window(rows, year) == (all - early) + next;
    assert all == (all - early) + early;
  }

  /** In year 9999 the count is always zero. */
  lemma WindowCount9999(rows: seq<Numbered>)
    ensures Window(rows, 9999) == {}
  {
    forall i | 0 <= i < |rows| && rows[i].issuedAt.Some?
      ensures !InYearWindow(rows[i].issuedAt.value, 9999)
    {
      YearWindow9999IsEmpty(rows[i].issuedAt.value);
    }
  }

  // ---------------------------------------------------------------------------
  // Numbers as text
  // ---------------------------------------------------------------------------

  /** At least four digits that read as the number, and no padding beyond four. */
  predicate FourOrMore(text: string, n: nat) {
    AllDigits(text) && |text| >= 4 && Value(text) == n && (|text| > 4 ==> text[0] != '0')
  }

  lemma {:induction false} DecHasNoLeadingZero(n: nat)
    requires n > 0
    ensures Dec(n)[0] != '0'
  {
    if n >= 10 {
      DecHasNoLeadingZero(n / 10);
    }
  }

  lemma {:induction false} DecLength(n: nat)
    requires n >= 10000
    ensures |Dec(n)| >= 5
  {
    assert |Dec(n / 1000)| >= 2;
    assert n / 10 / 10 / 10 == n / 1000;
    assert |Dec(n / 10 / 10)| >= 3;
  }

  lemma Dec4Shape(n: nat)
    ensures FourOrMore(Dec4(n), n)
  {
    hide Pad, Dec;
    ValueOfDec4(n);
    if n >= 10000 {
      DecHasNoLeadingZero(n);
      DecLength(n);
    }
  }

  /** `PREFIX-YYYY-NNNN`: four digits or more of the year and of the count. */
  lemma NumberTextShape(prefix: string, year: nat, n: nat)
    ensures exists y, k :: FourOrMore(y, year) && FourOrMore(k, n) && NumberText(prefix, year, n) == (prefix + "-") + (y + "-" + k)
  {
    hide FourOrMore, Dec4;
    Dec4Shape(year);
    Dec4Shape(n);
  }

  /** Different years or different counts never print alike. */
  lemma NumberTextInjective(prefix: string, y: nat, n: nat, y': nat, n': nat)
    requires NumberText(prefix, y, n) == NumberText(prefix, y', n')
    ensures y == y' && n == n'
  {
    CancelPrefix(prefix + "-", Dec4(y) + "-" + Dec4(n), Dec4(y') + "-" + Dec4(n'));
    SplitOnceUnique(Dec4(y), '-', Dec4(n));
    SplitOnceUnique(Dec4(y'), '-', Dec4(n'));
    ValueOfDec4(y);
    ValueOfDec4(y');
    ValueOfDec4(n);
    ValueOfDec4(n');
  }

  // ---------------------------------------------------------------------------
  // Gapless years
  // ---------------------------------------------------------------------------

  /** The first `n` numbers of a year. */
  function FirstNumbers(prefix: string, year: nat, n: nat): set<Option<string>> {
    set k | 1 <= k <= n :: Some(NumberText(prefix, year, k))
  }

  function NumbersOf(rows: seq<Numbered>, year: int): set<Option<string>> {
    set i | i in IssuedIn(rows, year) :: rows[i].number
  }

  predicate DistinctNumbers(rows: seq<Numbered>, year: int) {
    forall i, j :: i in IssuedIn(rows, year) && j in IssuedIn(rows, year) && i != j ==>
      rows[i].number != rows[j].number
  }

  /** The numbers of the year's rows are exactly 1..n, each used once. */
  predicate Gapless(prefix: string, rows: seq<Numbered>, year: nat) {
    && NumbersOf(rows, year) == FirstNumbers(prefix, year, |IssuedIn(rows, year)|)
    && DistinctNumbers(rows, year)
  }

  lemma InFirstNumbers(prefix: string, year: nat, n: nat, k: nat)
    requires k >= 1
    ensures Some(NumberText(prefix, year, k)) in FirstNumbers(prefix, year, n) <==> k <= n
  {
    if Some(NumberText(prefix, year, k)) in FirstNumbers(prefix, year, n) {
      var j :| 1 <= j <= n && NumberText(prefix, year, j) == NumberText(prefix, year, k);
      NumberTextInjective(prefix, year, j, year, k);
    }
  }

  /**
   On a gapless year the allocator's next step is decided by the two first seconds alone: it hands
   out n + 1 when they balance, repeats a number of the year (and so is refused) when its own first
   second holds more rows, and skips ahead when the next year's does.
   */
  lemma NextNumberDecided(prefix: string, rows: seq<Numbered>, now: Instant)
    requires now.date.year < 9999 && Gapless(prefix, rows, now.date.year)
    ensures var y := now.date.year;
            var n, own, next := |IssuedIn(rows, y)|, |AtMidnight(rows, y)|, |AtMidnight(rows, y + 1)|;
            var number := NextNumber(prefix, rows, now);
            && (number == NumberText(prefix, y, n + 1) <==> own == next)
            && (Some(number) in NumbersOf(rows, y) <==> own > next)
            && (own < next ==> number == NumberText(prefix, y, n + 1 + (next - own)))
  {
    hide Window, IssuedIn, AtMidnight, NumberText, NumbersOf, FirstNumbers, DistinctNumbers;
    var y := now.date.year;
    WindowCount(rows, y);
    NumberAgainstFirst(prefix, y, |IssuedIn(rows, y)|, |Window(rows, y)| + 1);
  }

  lemma NumberAgainstFirst(prefix: string, year: nat, n: nat, k: nat)
    requires k >= 1
    ensures NumberText(prefix, year, k) == NumberText(prefix, year, n + 1) <==> k == n + 1
    ensures Some(NumberText(prefix, year, k)) in FirstNumbers(prefix, year, n) <==> k <= n
  {
    InFirstNumbers(prefix, year, n, k);
    if NumberText(prefix, year, k) == NumberText(prefix, year, n + 1) {
      NumberTextInjective(prefix, year, k, year, n + 1);
    }
  }

  function Stamped(rows: seq<Numbered>, id: nat, number: string, now: Instant): seq<Numbered>
    requires id < |rows|
  {
    rows[id := Numbered(Some(number), Some(now))]
  }

  lemma StampedYears(rows: seq<Numbered>, id: nat, number: string, now: Instant, year: nat)
    requires id < |rows| && rows[id].issuedAt.None?
    ensures var rows' := Stamped(rows, id, number, now);
            && id !in IssuedIn(rows, year)
            && IssuedIn(rows', year) == IssuedIn(rows, year) + (if year == now.date.year then {id} else {})
            && NumbersOf(rows', year) == NumbersOf(rows, year) + (if year == now.date.year then {Some(number)} else {})
  {
    var rows' := Stamped(rows, id, number, now);
    assert IssuedIn(rows', year) == IssuedIn(rows, year) + (if year == now.date.year then {id} else {});
    forall i | i in IssuedIn(rows, year)
      ensures rows'[i] == rows[i] && rows[i].number in NumbersOf(rows', year)
    {
      assert i in IssuedIn(rows', year);
    }
    if year == now.date.year {
      assert id in IssuedIn(rows', year) && rows'[id].number in NumbersOf(rows', year);
    }
  }

  /** Giving a row the next number keeps every year gapless while first seconds stay empty. */
  lemma IssueKeepsGapless(prefix: string, rows: seq<Numbered>, id: nat, now: Instant, year: nat)
    requires id < |rows| && rows[id].issuedAt.None? && now.date.year < 9999
    requires AtMidnight(rows, now.date.year) == {} && AtMidnight(rows, now.date.year + 1) == {}
    requires Gapless(prefix, rows, now.date.year) && Gapless(prefix, rows, year)
    ensures Gapless(prefix, Stamped(rows, id, NextNumber(prefix, rows, now), now), year)
  {
    if year == now.date.year {
      NextKeepsGapless(prefix, rows, id, now);
    } else {
      OtherYearsKeepGapless(prefix, rows, id, NextNumber(prefix, rows, now), now, year);
    }
  }

  lemma NextKeepsGapless(prefix: string, rows: seq<Numbered>, id: nat, now: Instant)
    requires id < |rows| && rows[id].issuedAt.None? && now.date.year < 9999
    requires AtMidnight(rows, now.date.year) == {} && AtMidnight(rows, now.date.year + 1) == {}
    requires Gapless(prefix, rows, now.date.year)
    ensures Gapless(prefix, Stamped(rows, id, NextNumber(prefix, rows, now), now), now.date.year)
  {
    hide Gapless, NextNumber;
    NextIsSuccessor(prefix, rows, now);
    SuccessorKeepsGapless(prefix, rows, id, now);
  }

  lemma SuccessorKeepsGapless(prefix: string, rows: seq<Numbered>, id: nat, now: Instant)
    requires id < |rows| && rows[id].issuedAt.None? && Gapless(prefix, rows, now.date.year)
    requires NextNumber(prefix, rows, now) == NumberText(prefix, now.date.year, |IssuedIn(rows, now.date.year)| + 1)
    ensures Gapless(prefix, Stamped(rows, id, NextNumber(prefix, rows, now), now), now.date.year)
  {
    hide NextNumber, NumberText;
    var number, year := NextNumber(prefix, rows, now), now.date.year;
    NumberAgainstFirst(prefix, year, |IssuedIn(rows, year)|, |IssuedIn(rows, year)| + 1);
    StampedYears(rows, id, number, now, year);
    OneMoreNumber(prefix, year, |IssuedIn(rows, year)|);
    NewNumberIsDistinct(rows, id, number, now, year);
    assert |IssuedIn(rows, year) + {id}| == |IssuedIn(rows, year)| + 1;
  }

  /** A number past the successor leaves a hole behind it. */
  lemma SkipLeavesGap(prefix: string, rows: seq<Numbered>, id: nat, now: Instant, k: nat)
    requires id < |rows| && rows[id].issuedAt.None? && k > |IssuedIn(rows, now.date.year)| + 1
    requires NextNumber(prefix, rows, now) == NumberText(prefix, now.date.year, k)
    ensures !Gapless(prefix, Stamped(rows, id, NextNumber(prefix, rows, now), now), now.date.year)
  {
    hide NextNumber, NumberText;
    var number, year := NextNumber(prefix, rows, now), now.date.year;
    var n := |IssuedIn(rows, year)|;
    StampedYears(rows, id, number, now, year);
    NumberAgainstFirst(prefix, year, n + 1, k);
    assert |IssuedIn(rows, year) + {id}| == n + 1;
  }

  lemma HeldIsTaken(rows: seq<Numbered>, year: int, number: string)
    requires Some(number) in NumbersOf(rows, year)
    ensures Taken(rows, number)
  {
    var i :| i in IssuedIn(rows, year) && rows[i].number == Some(number);
  }

  /** No more rows sit in the first second of the next year than in that of this one. */
  predicate Steady(rows: seq<Numbered>, now: Instant) {
    now.date.year == 9999 || |AtMidnight(rows, now.date.year + 1)| <= |AtMidnight(rows, now.date.year)|
  }

  /** An issue that the UNIQUE constraint lets through keeps its year gapless exactly when the column is steady. */
  lemma CommittedIssueExactly(prefix: string, rows: seq<Numbered>, id: nat, now: Instant)
    requires id < |rows| && rows[id].issuedAt.None? && Gapless(prefix, rows, now.date.year)
    requires !Taken(rows, NextNumber(prefix, rows, now))
    ensures Gapless(prefix, Stamped(rows, id, NextNumber(prefix, rows, now), now), now.date.year) <==> Steady(rows, now)
  {
    hide Gapless, Taken, NumberText, NextNumber, AtMidnight, IssuedIn, NumbersOf;
    var year := now.date.year;
    var n := |IssuedIn(rows, year)|;
    if year == 9999 {
      LastYearStartsAtOne(prefix, rows, now);
      SuccessorKeepsGapless(prefix, rows, id, now);
    } else {
      var own, next := |AtMidnight(rows, year)|, |AtMidnight(rows, year + 1)|;
      NextNumberDecided(prefix, rows, now);
      if own > next {
        HeldIsTaken(rows, year, NextNumber(prefix, rows, now));
      } else if own == next {
        SuccessorKeepsGapless(prefix, rows, id, now);
      } else {
        SkipLeavesGap(prefix, rows, id, now, n + 1 + (next - own));
      }
    }
  }

  /** In year 9999 only the first number is ever tried, so a second issue is refused. */
  lemma LastYearStartsAtOne(prefix: string, rows: seq<Numbered>, now: Instant)
    requires now.date.year == 9999 && Gapless(prefix, rows, 9999) && !Taken(rows, NextNumber(prefix, rows, now))
    ensures NextNumber(prefix, rows, now) == NumberText(prefix, 9999, |IssuedIn(rows, 9999)| + 1)
  {
    hide Taken, NumberText, Window;
    WindowCount9999(rows);
    var n := |IssuedIn(rows, 9999)|;
    NumberAgainstFirst(prefix, 9999, n, 1);
    if n > 0 {
      HeldIsTaken(rows, 9999, NextNumber(prefix, rows, now));
    }
  }

  lemma OtherYearsKeepGapless(prefix: string, rows: seq<Numbered>, id: nat, number: string, now: Instant, year: nat)
    requires id < |rows| && rows[id].issuedAt.None? && year != now.date.year
    requires Gapless(prefix, rows, year)
    ensures Gapless(prefix, Stamped(rows, id, number, now), year)
  {
    StampedYears(rows, id, number, now, year);
    assert forall i :: i in IssuedIn(rows, year) ==> Stamped(rows, id, number, now)[i] == rows[i];
  }

  lemma NextIsSuccessor(prefix: string, rows: seq<Numbered>, now: Instant)
    requires now.date.year < 9999 && Gapless(prefix, rows, now.date.year)
    requires AtMidnight(rows, now.date.year) == {} && AtMidnight(rows, now.date.year + 1) == {}
    ensures NextNumber(prefix, rows, now) == NumberText(prefix, now.date.year, |IssuedIn(rows, now.date.year)| + 1)
    ensures Some(NextNumber(prefix, rows, now)) !in NumbersOf(rows, now.date.year)
  {
    NextNumberDecided(prefix, rows, now);
    assert |AtMidnight(rows, now.date.year)| == |AtMidnight(rows, now.date.year + 1)|;
  }

  lemma OneMoreNumber(prefix: string, year: nat, n: nat)
    ensures FirstNumbers(prefix, year, n + 1) == FirstNumbers(prefix, year, n) + {Some(NumberText(prefix, year, n + 1))}
  {
    hide NumberText;
  }

  lemma NewNumberIsDistinct(rows: seq<Numbered>, id: nat, number: string, now: Instant, year: nat)
    requires id < |rows| && rows[id].issuedAt.None? && year == now.date.year
    requires DistinctNumbers(rows, year) && Some(number) !in NumbersOf(rows, year)
    ensures DistinctNumbers(Stamped(rows, id, number, now), year)
  {
    var rows' := Stamped(rows, id, number, now);
    StampedYears(rows, id, number, now, year);
    forall i | i in IssuedIn(rows, year)
      ensures rows'[i] == rows[i] && rows[i].number != Some(number)
    {
      assert rows[i].number in NumbersOf(rows, year);
    }
  }
}
