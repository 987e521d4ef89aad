/** The cadence calendar and its text grammar (crates/core/src/domain/schedule.rs). */
module Cadences {
  import opened Wrappers
  import opened Calendar
  import opened Text

  datatype Cadence = Monthly(dom: int) | Quarterly(dom: int) | Yearly(month: int, day: int)

  datatype CadenceError = MissingArg | InvalidDom | InvalidYearly | UnknownPrefix

  predicate ValidCadence(c: Cadence) {
    match c
    case Monthly(dom) => 1 <= dom <= 28
    case Quarterly(dom) => 1 <= dom <= 28
    case Yearly(month, day) => 1 <= month <= 12 && 1 <= day <= 28
  }

  type Recurrence = c: Cadence | ValidCadence(c) witness Monthly(1)

  // ---------------------------------------------------------------------------
  // The calendar
  // ---------------------------------------------------------------------------

  /** Months since year 0. */
  function MonthIndex(d: Date): int {
    d.year * 12 + d.month - 1
  }

  function InMonth(index: int, dom: int): (d: Day)
    requires 1 <= dom <= 28
    ensures MonthIndex(d) == index && d.day == dom
  {
    Date(index / 12, index % 12 + 1, dom)
  }

  lemma MonthParts(year: int, month: int)
    requires 1 <= month <= 12
    ensures (year * 12 + month - 1) / 12 == year && (year * 12 + month - 1) % 12 == month - 1
  {
  }

  /** The next run strictly after `from`. */
  function Advance(c: Recurrence, from: Day): Day {
    match c
    case Monthly(dom) => InMonth(MonthIndex(from) + (if from.day >= dom then 1 else 0), dom)
    case Quarterly(dom) => InMonth(MonthIndex(from) + (if from.day >= dom then 3 else 0), dom)
    case Yearly(month, day) =>
      var candidate := Date(from.year, month, day);
      if DateBefore(from, candidate) then candidate else Date(from.year + 1, month, day)
  }

  /** `Cadence::advance` as written, with its carry branch and its carry loop. */
  method AdvanceRun(c: Recurrence, from: Day) returns (next: Day)
    ensures next == Advance(c, from)
  {
    match c {
      case Monthly(dom) =>
        var year, month := from.year, from.month;
        if from.day >= dom {
          if month == 12 {
            month := 1;
            year := year + 1;
          } else {
            month := month + 1;
          }
        }
        MonthParts(year, month);
        next := Date(year, month, dom);
      case Quarterly(dom) =>
        var year, month := from.year, from.month;
        if from.day >= dom {
          month := month + 3;
          while month > 12
            invariant 1 <= month <= 15 && year * 12 + month == from.year * 12 + from.month + 3
          {
            month := month - 12;
            year := year + 1;
          }
        }
        MonthParts(year, month);
        next := Date(year, month, dom);
      case Yearly(month, day) =>
        var candidate := Date(from.year, month, day);
        if DateBefore(from, candidate) {
          next := candidate;
        } else {
          next := Date(from.year + 1, month, day);
        }
    }
  }

  /** The days a cadence runs on. Quarterly fixes the day only: its months depend on the start. */
  predicate Fits(c: Recurrence, d: Day) {
    match c
    case Monthly(dom) => d.day == dom
    case Quarterly(dom) => d.day == dom
    case Yearly(month, day) => d.month == month && d.day == day
  }

  lemma AdvanceIsLater(c: Recurrence, from: Day)
    ensures DateBefore(from, Advance(c, from))
    ensures Fits(c, Advance(c, from))
    ensures from.year <= Advance(c, from).year <= from.year + 1
  {
  }

  /** Monthly and yearly runs are the least later date that fits: no run date is skipped. */
  lemma AdvanceIsLeast(c: Recurrence, from: Day, d: Day)
    requires !c.Quarterly? && Fits(c, d) && DateBefore(from, d)
    ensures DateAtMost(Advance(c, from), d)
  {
  }

  /** A quarterly run is the least later date on its day a whole number of quarters from the last one. */
  lemma QuarterIsLeast(c: Recurrence, from: Day, d: Day)
    requires c.Quarterly?
    ensures (MonthIndex(Advance(c, from)) - MonthIndex(from)) % 3 == 0
    ensures Fits(c, d) && DateBefore(from, d) && (MonthIndex(d) - MonthIndex(from)) % 3 == 0
            ==> DateAtMost(Advance(c, from), d)
  {
  }

  /** `advance` applied `k` times. */
  function Run(c: Recurrence, start: Day, k: nat): Day {
    if k == 0 then start else Advance(c, Run(c, start, k - 1))
  }

  /** The months between two runs. */
  function Stride(c: Recurrence): nat {
    if c.Monthly? then 1 else 3
  }

  /**
   The `k`-th run is `k` strides on from the start, and one less when the start comes before the day in
   its month, for then the first run falls in the start's own month.
   */
  lemma {:induction false} RunClosedForm(c: Recurrence, start: Day, k: nat)
    requires !c.Yearly? && k > 0
    ensures Run(c, start, k)
         == InMonth(MonthIndex(start) + Stride(c) * (if start.day < c.dom then k - 1 else k), c.dom)
  {
    if k > 1 {
      RunClosedForm(c, start, k - 1);
    }
  }

  /** Run dates strictly increase, so no two of them are the same date. */
  lemma {:induction false} RunsIncrease(c: Recurrence, start: Day, i: nat, j: nat)
    requires i < j
    ensures DateBefore(Run(c, start, i), Run(c, start, j))
  {
    AdvanceIsLater(c, Run(c, start, j - 1));
    if i < j - 1 {
      RunsIncrease(c, start, i, j - 1);
    }
  }

  lemma RunsDistinct(c: Recurrence, start: Day, i: nat, j: nat)
    requires Run(c, start, i) == Run(c, start, j)
    ensures i == j
  {
    if i < j {
      RunsIncrease(c, start, i, j);
    } else if j < i {
      RunsIncrease(c, start, j, i);
    }
  }

  // ---------------------------------------------------------------------------
  // The grammar
  // ---------------------------------------------------------------------------

  function Print(c: Recurrence): string {
    match c
    case Monthly(dom) => "monthly" + "@" + Dec(dom)
    case Quarterly(dom) => "quarterly" + "@" + Dec(dom)
    case Yearly(month, day) => "yearly" + "@" + (Pad(2, month) + "-" + Pad(2, day))
  }

  function ParseDom(s: string): (r: Result<int, CadenceError>)
    ensures r.Success? ==> 1 <= r.value <= 28
  {
    match ParseUnsigned(s, 255)
    case Some(dom) => if 1 <= dom <= 28 then Success(dom) else Failure(InvalidDom)
    case None => Failure(InvalidDom)
  }

  function ParseYearly(s: string): (r: Result<Cadence, CadenceError>)
    ensures r.Success? ==> ValidCadence(r.value)
  {
    match SplitOnce(s, '-')
    case None => Failure(InvalidYearly)
    case Some((mm, dd)) =>
      match (ParseUnsigned(mm, 255), ParseUnsigned(dd, 255))
      case (Some(month), Some(day)) =>
        if 1 <= month <= 12 && 1 <= day <= 28 then Success(Yearly(month, day)) else Failure(InvalidYearly)
      case (_, _) => Failure(InvalidYearly)
  }

  /** A string that parses gives a valid cadence, whatever its spelling. */
  function Parse(s: string): (r: Result<Cadence, CadenceError>)
    ensures r.Success? ==> ValidCadence(r.value)
  {
    match SplitOnce(s, '@')
    case None => Failure(MissingArg)
    case Some((prefix, arg)) =>
      if prefix == "monthly" then
        match ParseDom(arg)
        case Success(dom) => Success(Monthly(dom))
        case Failure(e) => Failure(e)
      else if prefix == "quarterly" then
        match ParseDom(arg)
        case Success(dom) => Success(Quarterly(dom))
        case Failure(e) => Failure(e)
      else if prefix == "yearly" then ParseYearly(arg)
      else Failure(UnknownPrefix)
  }

  /** The stored text of a schedule's cadence reads back as the same cadence. */
  lemma ParseOfPrint(c: Recurrence)
    ensures Parse(Print(c)) == Success(c)
  {
    match c {
      case Monthly(dom) =>
        ParseDomOfDec(dom);
        SplitCadence("monthly", Dec(dom));
      case Quarterly(dom) =>
        ParseDomOfDec(dom);
        SplitCadence("quarterly", Dec(dom));
      case Yearly(month, day) =>
        ParseYearlyOfPads(month, day);
        SplitCadence("yearly", Pad(2, month) + "-" + Pad(2, day));
    }
  }

  /** What the grammar accepts: a day 1 to 28 after `monthly@` or `quarterly@`, a month and such a day after `yearly@`. */
  ghost predicate Spells(s: string, c: Cadence) {
    match c
    case Monthly(dom) => exists arg :: s == "monthly" + "@" + arg && IsNumber(arg, dom, 28)
    case Quarterly(dom) => exists arg :: s == "quarterly" + "@" + arg && IsNumber(arg, dom, 28)
    case Yearly(month, day) =>
      exists mm, dd :: '-' !in mm && s == "yearly" + "@" + (mm + "-" + dd) && IsNumber(mm, month, 12) && IsNumber(dd, day, 28)
  }

  predicate IsNumber(text: string, n: int, max: int) {
    1 <= n <= max && ParseUnsigned(text, 255) == Some(n)
  }

  /** A text parses to a cadence exactly when it spells it. */
  lemma ParseExactly(s: string, c: Cadence)
    ensures Parse(s) == Success(c) <==> Spells(s, c)
  {
    hide ParseUnsigned, SplitOnce;
    if Parse(s) == Success(c) {
      ParsedSpells(s, c);
    }
    if Spells(s, c) {
      SpelledParses(s, c);
    }
  }

  lemma ParsedSpells(s: string, c: Cadence)
    requires Parse(s) == Success(c)
    ensures Spells(s, c)
  {
    hide ParseUnsigned, SplitOnce;
    var (prefix, arg) := SplitOnce(s, '@').value;
    assert s == prefix + "@" + arg;
    match c {
      case Monthly(dom) => assert IsNumber(arg, dom, 28);
      case Quarterly(dom) => assert IsNumber(arg, dom, 28);
      case Yearly(month, day) =>
        var (mm, dd) := SplitOnce(arg, '-').value;
        assert arg == mm + "-" + dd && IsNumber(mm, month, 12) && IsNumber(dd, day, 28);
    }
  }

  lemma SpelledParses(s: string, c: Cadence)
    requires Spells(s, c)
    ensures Parse(s) == Success(c)
  {
    hide ParseUnsigned, SplitOnce;
    match c {
      case Monthly(dom) =>
        var arg :| s == "monthly" + "@" + arg && IsNumber(arg, dom, 28);
        SplitCadence("monthly", arg);
      case Quarterly(dom) =>
        var arg :| s == "quarterly" + "@" + arg && IsNumber(arg, dom, 28);
        SplitCadence("quarterly", arg);
      case Yearly(month, day) =>
        var mm, dd :| '-' !in mm && s == "yearly" + "@" + (mm + "-" + dd) && IsNumber(mm, month, 12) && IsNumber(dd, day, 28);
        SplitCadence("yearly", mm + "-" + dd);
        SplitOnceUnique(mm, '-', dd);
    }
  }

  lemma SplitCadence(prefix: string, arg: string)
    requires '@' !in prefix
    ensures SplitOnce(prefix + "@" + arg, '@') == Some((prefix, arg))
  {
    SplitOnceUnique(prefix, '@', arg);
  }

  lemma ParseTwoDigits(n: nat)
    requires n < 100
    ensures ParseUnsigned(Pad(2, n), 255) == Some(n)
  {
    assert Pow10(2) == 100;
    ValueOfPad(2, n);
    ParseOfDigits(Pad(2, n), 255);
  }

  lemma ParseYearlyOfPads(month: nat, day: nat)
    requires 1 <= month <= 12 && 1 <= day <= 28
    ensures ParseYearly(Pad(2, month) + "-" + Pad(2, day)) == Success(Yearly(month, day))
  {
    ParseTwoDigits(month);
    ParseTwoDigits(day);
    SplitOnceUnique(Pad(2, month), '-', Pad(2, day));
  }

  lemma ParseDomOfDec(dom: nat)
    requires 1 <= dom <= 28
    ensures ParseDom(Dec(dom)) == Success(dom)
  {
    ValueOfDec(dom);
    ParseOfDigits(Dec(dom), 255);
  }
}
