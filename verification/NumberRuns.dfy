/**
 Numbers over whole runs: gapless years while nobody issues in the first second of a year, and what
 one such issue does to its year (crates/commands/src/issue.rs, crates/commands/src/credit.rs).
 */
module NumberRuns {
  import opened Wrappers
  import opened Calendar
  import opened Lifecycle
  import opened Tables
  import opened Ledger
  import opened Invariants
  import opened Numbering
  import opened Runs
  import opened Safety
  import opened Outbox
  import M = Money
  import T = Tax
  import Text

  // ---------------------------------------------------------------------------
  // How a transaction moves a number column
  // ---------------------------------------------------------------------------

  /** Nothing, one more unnumbered row, or the next number on a row that had none. */
  ghost predicate Moves(prefix: string, a: seq<Numbered>, b: seq<Numbered>, issuedAt: Option<Instant>) {
    || b == a
    || b == a + [Numbered(None, None)]
    || (issuedAt.Some? && exists id: nat :: IsIssue(prefix, a, b, id, issuedAt.value))
  }

  predicate IsIssue(prefix: string, a: seq<Numbered>, b: seq<Numbered>, id: nat, now: Instant) {
    && id < |a| && a[id].issuedAt.None?
    && !Taken(a, NextNumber(prefix, a, now))
    && b == Stamped(a, id, NextNumber(prefix, a, now), now)
  }

  function InvoiceIssue(s: Step): Option<Instant> {
    if s.IssueStep? then Some(s.env.now) else None
  }

  function CreditIssue(s: Step): Option<Instant> {
    if s.IssueCreditStep? then Some(s.env.now) else None
  }

  lemma IssueMoves(db: Db, cfg: T.Config, id: nat, env: Env)
    requires LedgerOk(db)
    ensures Moves("INV", InvoiceNumbers(db), InvoiceNumbers(IssueInvoice(db, cfg, id, env).0), Some(env.now))
  {
    hide NextNumber, Taken, TaxedLines, IssuedInvoice, LedgerOk, IsIssue;
    var (db', r) := IssueInvoice(db, cfg, id, env);
    if r.Success? {
      IssueNumbers(db, cfg, id, env);
    }
  }

  lemma DraftMoves(db: Db, input: DraftInput, env: Env)
    ensures Moves("INV", InvoiceNumbers(db), InvoiceNumbers(DraftInvoice(db, input, env).0), None)
  {
    hide ValidDraft, DraftedLines, Subtotals;
  }

  lemma OthersLeaveNumbers(db: Db, s: Step)
    requires !s.DraftStep? && !s.IssueStep?
    ensures InvoiceNumbers(Do(db, s)) == InvoiceNumbers(db)
  {
    hide NextNumber, Taken, SendInvoice, MarkPaid, Relay, InvoiceNumbers;
    match s {
      case SendStep(id, uri, key, path, env) => SendLeavesNumbers(db, id, uri, key, path, env);
      case PayStep(id, amount, receivedAt, busEvent, env) =>
        PayLeavesNumbers(db, id, amount, receivedAt, busEvent, env);
      case RelayStep(limit, faults) =>
        RelayOnlyAdds(db, limit, faults);
        SameNumbers(db, Do(db, s));
      case _ => SameNumbers(db, Do(db, s));
    }
  }

  lemma SameNumbers(a: Db, b: Db)
    requires |a.invoices| == |b.invoices|
    requires forall i :: 0 <= i < |a.invoices| ==>
               a.invoices[i].number == b.invoices[i].number && a.invoices[i].issuedAt == b.invoices[i].issuedAt
    ensures InvoiceNumbers(b) == InvoiceNumbers(a)
  {
  }

  lemma SendLeavesNumbers(db: Db, id: nat, uri: string, key: Option<string>, path: SendPath, env: Env)
    ensures InvoiceNumbers(SendInvoice(db, id, uri, key, path, env).0) == InvoiceNumbers(db)
  {
    hide Scheme, LocalDestination, InvoiceNumbers;
    SameNumbers(db, SendInvoice(db, id, uri, key, path, env).0);
  }

  lemma PayLeavesNumbers(db: Db, id: nat, amount: real, receivedAt: Option<Instant>, busEvent: Option<string>, env: Env)
    ensures InvoiceNumbers(MarkPaid(db, id, amount, receivedAt, busEvent, env).0) == InvoiceNumbers(db)
  {
    hide InvoiceNumbers;
    SameNumbers(db, MarkPaid(db, id, amount, receivedAt, busEvent, env).0);
  }

  lemma StepMovesInvoices(db: Db, s: Step)
    requires LedgerOk(db)
    ensures Moves("INV", InvoiceNumbers(db), InvoiceNumbers(Do(db, s)), InvoiceIssue(s))
  {
    hide DraftInvoice, IssueInvoice, InvoiceNumbers, Moves, LedgerOk;
    match s {
      case DraftStep(input, env) => DraftMoves(db, input, env);
      case IssueStep(cfg, id, env) => IssueMoves(db, cfg, id, env);
      case _ =>
        OthersLeaveNumbers(db, s);
        NothingMoves("INV", InvoiceNumbers(db));
    }
  }

  lemma NothingMoves(prefix: string, rows: seq<Numbered>)
    ensures Moves(prefix, rows, rows, None)
  {
  }

  /** A credit note is a draft exactly until it has an issue stamp. */
  predicate CreditsOk(db: Db) {
    forall i :: 0 <= i < |db.creditNotes| ==>
      (db.creditNotes[i].state == CreditDraft <==> db.creditNotes[i].issuedAt.None?)
  }

  lemma StepMovesCredits(db: Db, s: Step)
    requires CreditsOk(db)
    ensures Moves("CN", CreditNumbers(db), CreditNumbers(Do(db, s)), CreditIssue(s))
    ensures CreditsOk(Do(db, s))
  {
    hide CreateCreditNote, IssueCreditNote, CreditNumbers, Moves, CreditsOk;
    match s {
      case CreditStep(invoice, amount, refundRef, env) => NewCreditMoves(db, invoice, amount, refundRef, env);
      case IssueCreditStep(note, env) => IssueCreditMoves(db, note, env);
      case _ => OthersLeaveCredits(db, s);
    }
  }

  lemma NewCreditMoves(db: Db, invoice: nat, amount: real, refundRef: Option<string>, env: Env)
    requires CreditsOk(db)
    ensures var db' := CreateCreditNote(db, invoice, amount, refundRef, env).0;
            CreditsOk(db') && Moves("CN", CreditNumbers(db), CreditNumbers(db'), None)
  {
  }

  lemma IssueCreditMoves(db: Db, note: nat, env: Env)
    requires CreditsOk(db)
    ensures var db' := IssueCreditNote(db, note, env).0;
            CreditsOk(db') && Moves("CN", CreditNumbers(db), CreditNumbers(db'), Some(env.now))
  {
    hide NextNumber, Taken;
    var (db', r) := IssueCreditNote(db, note, env);
    if r.Success? {
      assert IsIssue("CN", CreditNumbers(db), CreditNumbers(db'), note, env.now);
    }
  }

  lemma OthersLeaveCredits(db: Db, s: Step)
    requires CreditsOk(db) && !s.CreditStep? && !s.IssueCreditStep?
    ensures Moves("CN", CreditNumbers(db), CreditNumbers(Do(db, s)), None) && CreditsOk(Do(db, s))
  {
    hide IssueInvoice, DraftInvoice, SendInvoice, Relay;
    match s {
      case RelayStep(limit, faults) => RelayOnlyAdds(db, limit, faults);
      case IssueStep(cfg, id, env) => Scheduler.IssueFrame(db, cfg, id, env);
      case DraftStep(input, env) => Scheduler.DraftFrame(db, input, env);
      case SendStep(id, uri, key, path, env) => SendLeavesCredits(db, id, uri, key, path, env);
      case _ =>
    }
    assert Do(db, s).creditNotes == db.creditNotes;
  }

  lemma SendLeavesCredits(db: Db, id: nat, uri: string, key: Option<string>, path: SendPath, env: Env)
    ensures SendInvoice(db, id, uri, key, path, env).0.creditNotes == db.creditNotes
  {
    hide Scheme, LocalDestination;
  }

  // ---------------------------------------------------------------------------
  // Unique numbers, always
  // ---------------------------------------------------------------------------

  /** Numbered and stamped together, and no number twice. */
  ghost predicate UniqueNumbers(rows: seq<Numbered>) {
    && (forall i :: 0 <= i < |rows| ==> (rows[i].number.Some? <==> rows[i].issuedAt.Some?))
    && (forall i, j :: 0 <= i < j < |rows| && rows[i].number.Some? ==> rows[i].number != rows[j].number)
  }

  lemma MovesKeepUnique(prefix: string, a: seq<Numbered>, b: seq<Numbered>, issuedAt: Option<Instant>)
    requires UniqueNumbers(a) && Moves(prefix, a, b, issuedAt)
    ensures UniqueNumbers(b)
  {
    hide NextNumber;
  }

  // ---------------------------------------------------------------------------
  // Gapless years, away from the first second
  // ---------------------------------------------------------------------------

  /** Neither in the first second of a year nor in the last year of four digits. */
  predicate Calm(now: Instant) {
    !InFirstSecond(now) && now.date.year < 9999
  }

  /** Every year is numbered 1..n, and no row was stamped in a first second. */
  ghost predicate Healthy(prefix: string, rows: seq<Numbered>) {
    && UniqueNumbers(rows)
    && (forall i :: 0 <= i < |rows| && rows[i].issuedAt.Some? ==> Calm(rows[i].issuedAt.value))
    && (forall year: nat :: Gapless(prefix, rows, year))
  }

  lemma NoMidnights(prefix: string, rows: seq<Numbered>, year: int)
    requires Healthy(prefix, rows)
    ensures AtMidnight(rows, year) == {}
  {
    hide Gapless;
  }

  lemma AppendKeepsGapless(prefix: string, rows: seq<Numbered>, year: nat)
    requires Gapless(prefix, rows, year)
    ensures Gapless(prefix, rows + [Numbered(None, None)], year)
  {
    hide FirstNumbers;
    var rows' := rows + [Numbered(None, None)];
    assert IssuedIn(rows', year) == IssuedIn(rows, year);
    assert forall i :: i in IssuedIn(rows, year) ==> rows'[i] == rows[i];
  }

  lemma IssueKeepsHealthy(prefix: string, a: seq<Numbered>, b: seq<Numbered>, id: nat, now: Instant)
    requires Healthy(prefix, a) && Calm(now) && IsIssue(prefix, a, b, id, now)
    ensures forall year: nat :: Gapless(prefix, b, year)
  {
    hide Gapless, NextNumber, Taken;
    forall year: nat
      ensures Gapless(prefix, b, year)
    {
      NoMidnights(prefix, a, now.date.year);
      NoMidnights(prefix, a, now.date.year + 1);
      IssueKeepsGapless(prefix, a, id, now, year);
    }
  }

  lemma MovesKeepHealthy(prefix: string, a: seq<Numbered>, b: seq<Numbered>, issuedAt: Option<Instant>)
    requires Healthy(prefix, a) && Moves(prefix, a, b, issuedAt)
    requires issuedAt.Some? ==> Calm(issuedAt.value)
    ensures Healthy(prefix, b)
  {
    hide NextNumber, Taken, Gapless, UniqueNumbers, Calm;
    MovesKeepUnique(prefix, a, b, issuedAt);
    if b == a + [Numbered(None, None)] {
      forall year: nat
        ensures Gapless(prefix, b, year)
      {
        AppendKeepsGapless(prefix, a, year);
      }
    } else if b != a {
      var id: nat :| IsIssue(prefix, a, b, id, issuedAt.value);
      IssueKeepsHealthy(prefix, a, b, id, issuedAt.value);
    }
  }

  /** On a healthy column the next number is one past the year's count and nobody holds it. */
  lemma HealthyNumberIsFree(prefix: string, rows: seq<Numbered>, now: Instant)
    requires Healthy(prefix, rows) && now.date.year < 9999
    ensures NextNumber(prefix, rows, now) == NumberText(prefix, now.date.year, |IssuedIn(rows, now.date.year)| + 1)
    ensures !Taken(rows, NextNumber(prefix, rows, now))
  {
    hide NumberText, NextNumber, Window;
    var number, year := NextNumber(prefix, rows, now), now.date.year;
    NoMidnights(prefix, rows, year);
    NoMidnights(prefix, rows, year + 1);
    NextIsSuccessor(prefix, rows, now);
    forall i | 0 <= i < |rows|
      ensures rows[i].number != Some(number)
    {
      if rows[i].issuedAt.Some? {
        NumberOfYear(prefix, rows, i, year);
      }
    }
  }

  /** A row numbered for this year was issued in it. */
  lemma NumberOfYear(prefix: string, rows: seq<Numbered>, i: nat, year: nat)
    requires i < |rows| && rows[i].issuedAt.Some? && Gapless(prefix, rows, rows[i].issuedAt.value.date.year)
    ensures rows[i].number.Some?
    ensures (exists n: nat :: rows[i].number == Some(NumberText(prefix, year, n)))
            ==> rows[i].issuedAt.value.date.year == year && rows[i].number in NumbersOf(rows, year)
  {
    hide NumberText;
    var own := rows[i].issuedAt.value.date.year;
    assert i in IssuedIn(rows, own) && rows[i].number in NumbersOf(rows, own);
    var k: nat :| rows[i].number == Some(NumberText(prefix, own, k));
    if n: nat :| rows[i].number == Some(NumberText(prefix, year, n)) {
      NumberTextInjective(prefix, own, k, year, n);
    }
  }

  // ---------------------------------------------------------------------------
  // Runs
  // ---------------------------------------------------------------------------

  /** No invoice and no credit note of this transaction is issued in a first second. */
  predicate CalmStep(s: Step) {
    && (InvoiceIssue(s).Some? ==> Calm(InvoiceIssue(s).value))
    && (CreditIssue(s).Some? ==> Calm(CreditIssue(s).value))
  }

  ghost predicate CalmCall(c: Call) {
    && (c.Command? ==> CalmStep(c.step))
    && (c.TickCall? ==> forall n: nat :: Calm(c.turns(n).issue.now))
  }

  ghost predicate NumbersOk(db: Db) {
    Healthy("INV", InvoiceNumbers(db)) && Healthy("CN", CreditNumbers(db)) && CreditsOk(db)
  }

  lemma PartIsCalm(s: Step, c: Call)
    requires CalmCall(c) && PartOf(s, c)
    ensures CalmStep(s)
  {
  }

  lemma {:induction false} CalmStepsKeepNumbers(db: Db, steps: seq<Step>)
    requires Inv(db) && NumbersOk(db) && forall i :: 0 <= i < |steps| ==> CalmStep(steps[i])
    ensures NumbersOk(DoAll(db, steps))
    decreases |steps|
  {
    hide Do, Healthy, Moves, CreditsOk, LedgerOk, KeysUnique, SendsOk, BusOk, Grows;
    if steps != [] {
      var s, db' := steps[0], Do(db, steps[0]);
      StepMovesInvoices(db, s);
      StepMovesCredits(db, s);
      MovesKeepHealthy("INV", InvoiceNumbers(db), InvoiceNumbers(db'), InvoiceIssue(s));
      MovesKeepHealthy("CN", CreditNumbers(db), CreditNumbers(db'), CreditIssue(s));
      OneStep(db, s);
      DoAllKeeps(db, [s]);
      CalmStepsKeepNumbers(db', steps[1..]);
    }
  }

  lemma {:induction false} CalmRunsKeepNumbers(db: Db, calls: seq<Call>)
    requires Inv(db) && NumbersOk(db) && forall i :: 0 <= i < |calls| ==> CalmCall(calls[i])
    ensures NumbersOk(RunCalls(db, calls))
    decreases |calls|
  {
    hide NumbersOk, Inv, CalmCall, Apply, CalmStep, PartOf;
    if calls != [] {
      var steps := CallIsSteps(db, calls[0]);
      forall i | 0 <= i < |steps|
        ensures CalmStep(steps[i])
      {
        PartIsCalm(steps[i], calls[0]);
      }
      DoAllKeeps(db, steps);
      CalmStepsKeepNumbers(db, steps);
      CalmRunsKeepNumbers(Apply(db, calls[0]), calls[1..]);
    }
  }

  lemma EmptyHealthy(prefix: string)
    ensures Healthy(prefix, [])
  {
    var none: seq<Numbered> := [];
    forall year: nat
      ensures Gapless(prefix, none, year)
    {
      assert IssuedIn(none, year) == {};
    }
  }

  /** If nothing is issued in a first second, every year is 1..n even under a clock that jumps about. */
  lemma CalmRunsAreGapless(calls: seq<Call>, year: nat)
    requires forall i :: 0 <= i < |calls| ==> CalmCall(calls[i])
    ensures var db := RunCalls(EMPTY, calls);
            && Gapless("INV", InvoiceNumbers(db), year)
            && Gapless("CN", CreditNumbers(db), year)
  {
    hide Inv, RunCalls, CalmCall, Gapless;
    EmptyInv();
    EmptyNumbers();
    CalmRunsKeepNumbers(EMPTY, calls);
  }

  // ---------------------------------------------------------------------------
  // Gapless years, exactly
  // ---------------------------------------------------------------------------

  ghost predicate AllGapless(prefix: string, rows: seq<Numbered>) {
    forall year: nat :: Gapless(prefix, rows, year)
  }

  /** The move stamped a row: it was an issue that committed. */
  predicate Issued(a: seq<Numbered>, b: seq<Numbered>) {
    |a| == |b| && a != b
  }

  ghost predicate SteadyMove(a: seq<Numbered>, b: seq<Numbered>, issuedAt: Option<Instant>) {
    Issued(a, b) && issuedAt.Some? ==> Steady(a, issuedAt.value)
  }

  lemma MoveIsGaplessExactly(prefix: string, a: seq<Numbered>, b: seq<Numbered>, issuedAt: Option<Instant>)
    requires AllGapless(prefix, a) && Moves(prefix, a, b, issuedAt)
    ensures AllGapless(prefix, b) <==> SteadyMove(a, b, issuedAt)
  {
    hide NextNumber, Taken, Gapless, Steady;
    if b == a + [Numbered(None, None)] {
      forall year: nat
        ensures Gapless(prefix, b, year)
      {
        AppendKeepsGapless(prefix, a, year);
      }
    } else if b != a {
      var now := issuedAt.value;
      var id: nat :| IsIssue(prefix, a, b, id, now);
      CommittedIssueExactly(prefix, a, id, now);
      forall year: nat | year != now.date.year
        ensures Gapless(prefix, b, year)
      {
        OtherYearsKeepGapless(prefix, a, id, NextNumber(prefix, a, now), now, year);
      }
    }
  }

  ghost predicate GaplessDb(db: Db) {
    AllGapless("INV", InvoiceNumbers(db)) && AllGapless("CN", CreditNumbers(db))
  }

  ghost predicate SteadyStep(db: Db, s: Step) {
    && SteadyMove(InvoiceNumbers(db), InvoiceNumbers(Do(db, s)), InvoiceIssue(s))
    && SteadyMove(CreditNumbers(db), CreditNumbers(Do(db, s)), CreditIssue(s))
  }

  /** One transaction keeps all years gapless exactly when it is steady. */
  lemma StepIsGaplessExactly(db: Db, s: Step)
    requires LedgerOk(db) && CreditsOk(db) && GaplessDb(db)
    ensures CreditsOk(Do(db, s))
    ensures GaplessDb(Do(db, s)) <==> SteadyStep(db, s)
  {
    hide Do, AllGapless, Moves, CreditsOk, LedgerOk, SteadyMove, InvoiceNumbers, CreditNumbers;
    StepMovesInvoices(db, s);
    StepMovesCredits(db, s);
    MoveIsGaplessExactly("INV", InvoiceNumbers(db), InvoiceNumbers(Do(db, s)), InvoiceIssue(s));
    MoveIsGaplessExactly("CN", CreditNumbers(db), CreditNumbers(Do(db, s)), CreditIssue(s));
  }

  ghost predicate GaplessThroughout(db: Db, steps: seq<Step>)
    decreases |steps|
  {
    GaplessDb(db) && (steps != [] ==> GaplessThroughout(Do(db, steps[0]), steps[1..]))
  }

  /** Every issue that commits finds no more rows in the next year's first second than in its own. */
  ghost predicate SteadyThroughout(db: Db, steps: seq<Step>)
    decreases |steps|
  {
    steps != [] ==> SteadyStep(db, steps[0]) && SteadyThroughout(Do(db, steps[0]), steps[1..])
  }

  lemma InvAfterStep(db: Db, s: Step)
    requires Inv(db)
    ensures LedgerOk(db) && Inv(Do(db, s))
  {
    hide Do, LedgerOk, KeysUnique, SendsOk, BusOk, Grows;
    OneStep(db, s);
    DoAllKeeps(db, [s]);
  }

  /** Over any sequence of transactions every year stays 1..n throughout exactly when every issue is steady. */
  lemma {:induction false} GaplessExactly(db: Db, steps: seq<Step>)
    requires Inv(db) && CreditsOk(db) && GaplessDb(db)
    ensures GaplessThroughout(db, steps) <==> SteadyThroughout(db, steps)
    decreases |steps|
  {
    hide Do, Inv, LedgerOk, CreditsOk, GaplessDb, SteadyStep;
    if steps != [] {
      InvAfterStep(db, steps[0]);
      StepIsGaplessExactly(db, steps[0]);
      if SteadyStep(db, steps[0]) {
        GaplessExactly(Do(db, steps[0]), steps[1..]);
      }
    }
  }

  // ---------------------------------------------------------------------------
  // A clock that never goes back
  // ---------------------------------------------------------------------------

  predicate NotAfter(s: Stamp, t: Stamp) {
    !StampBefore(t, s)
  }

  predicate NoneAfter(rows: seq<Numbered>, now: Instant) {
    forall i :: 0 <= i < |rows| && rows[i].issuedAt.Some? ==> NotAfter(rows[i].issuedAt.value, now)
  }

  lemma NothingAheadIsSteady(rows: seq<Numbered>, now: Instant)
    requires NoneAfter(rows, now)
    ensures Steady(rows, now)
  {
    assert AtMidnight(rows, now.date.year + 1) == {};
  }

  predicate Past(db: Db, now: Instant) {
    NoneAfter(InvoiceNumbers(db), now) && NoneAfter(CreditNumbers(db), now)
  }

  function StepIssue(s: Step): Option<Instant> {
    if s.IssueStep? || s.IssueCreditStep? then Some(s.env.now) else None
  }

  ghost predicate IssuesBy(steps: seq<Step>, t: Instant) {
    forall i :: 0 <= i < |steps| && StepIssue(steps[i]).Some? ==> NotAfter(StepIssue(steps[i]).value, t)
  }

  ghost predicate ForwardSteps(steps: seq<Step>) {
    forall i, j :: 0 <= i <= j < |steps| && StepIssue(steps[i]).Some? && StepIssue(steps[j]).Some? ==>
      NotAfter(StepIssue(steps[i]).value, StepIssue(steps[j]).value)
  }

  lemma MoveKeepsPast(prefix: string, a: seq<Numbered>, b: seq<Numbered>, issuedAt: Option<Instant>, t: Instant)
    requires Moves(prefix, a, b, issuedAt) && NoneAfter(a, t) && (issuedAt.Some? ==> NotAfter(issuedAt.value, t))
    ensures NoneAfter(b, t)
  {
    hide NextNumber, Taken, NotAfter;
  }

  lemma StepKeepsPast(db: Db, s: Step, t: Instant)
    requires LedgerOk(db) && CreditsOk(db) && Past(db, t)
    requires StepIssue(s).Some? ==> NotAfter(StepIssue(s).value, t)
    ensures Past(Do(db, s), t)
  {
    hide Do, Moves, CreditsOk, LedgerOk, NotAfter, NoneAfter, InvoiceNumbers, CreditNumbers;
    StepMovesInvoices(db, s);
    StepMovesCredits(db, s);
    MoveKeepsPast("INV", InvoiceNumbers(db), InvoiceNumbers(Do(db, s)), InvoiceIssue(s), t);
    MoveKeepsPast("CN", CreditNumbers(db), CreditNumbers(Do(db, s)), CreditIssue(s), t);
  }

  lemma PastIsSteady(db: Db, s: Step)
    requires StepIssue(s).Some? ==> Past(db, StepIssue(s).value)
    ensures SteadyStep(db, s)
  {
    hide Do, Steady, NoneAfter, InvoiceNumbers, CreditNumbers;
    if StepIssue(s).Some? {
      NothingAheadIsSteady(InvoiceNumbers(db), s.env.now);
      NothingAheadIsSteady(CreditNumbers(db), s.env.now);
    }
  }

  /** The store is sound and every issue still to come lies at or after every stamp in it. */
  ghost predicate ReadyFor(db: Db, steps: seq<Step>) {
    && Inv(db) && CreditsOk(db) && GaplessDb(db) && ForwardSteps(steps)
    && forall i :: 0 <= i < |steps| && StepIssue(steps[i]).Some? ==> Past(db, StepIssue(steps[i]).value)
  }

  lemma ReadyForRest(db: Db, steps: seq<Step>)
    requires steps != [] && ReadyFor(db, steps)
    ensures ReadyFor(Do(db, steps[0]), steps[1..])
  {
    hide Do, Inv, LedgerOk, CreditsOk, GaplessDb, Past, NotAfter, SteadyStep;
    InvAfterStep(db, steps[0]);
    PastIsSteady(db, steps[0]);
    StepIsGaplessExactly(db, steps[0]);
    forall i | 0 <= i < |steps| - 1 && StepIssue(steps[1..][i]).Some?
      ensures Past(Do(db, steps[0]), StepIssue(steps[1..][i]).value)
    {
      assert steps[1..][i] == steps[i + 1];
      StepKeepsPast(db, steps[0], StepIssue(steps[i + 1]).value);
    }
  }

  lemma {:induction false} ForwardStepsKeep(db: Db, steps: seq<Step>)
    requires ReadyFor(db, steps)
    ensures ReadyFor(DoAll(db, steps), [])
    decreases |steps|
  {
    hide Do, Inv, CreditsOk, GaplessDb, Past, StepIssue, NotAfter;
    if steps != [] {
      ReadyForRest(db, steps);
      ForwardStepsKeep(Do(db, steps[0]), steps[1..]);
    }
  }

  lemma {:induction false} StepsKeepPast(db: Db, steps: seq<Step>, t: Instant)
    requires Inv(db) && CreditsOk(db) && Past(db, t) && IssuesBy(steps, t)
    ensures Past(DoAll(db, steps), t)
    decreases |steps|
  {
    hide Do, Inv, LedgerOk, CreditsOk, Past, StepIssue, NotAfter, Moves, CreditNumbers;
    if steps != [] {
      InvAfterStep(db, steps[0]);
      StepKeepsPast(db, steps[0], t);
      StepMovesCredits(db, steps[0]);
      StepsKeepPast(Do(db, steps[0]), steps[1..], t);
    }
  }

  /** The instants at which a call may issue something. */
  ghost predicate IssuesAt(c: Call, t: Instant) {
    || (c.Command? && StepIssue(c.step) == Some(t))
    || (c.TickCall? && exists n: nat :: c.turns(n).issue.now == t)
  }

  /** Turns that a tick never takes count too; they may be given any later instant. */
  ghost predicate ForwardTick(c: Call) {
    c.TickCall? ==> forall m: nat, n: nat :: m <= n ==> NotAfter(c.turns(m).issue.now, c.turns(n).issue.now)
  }

  /** Within a tick and from call to call, no issue instant lies before an earlier one. */
  ghost predicate ForwardClock(calls: seq<Call>) {
    && (forall i :: 0 <= i < |calls| ==> ForwardTick(calls[i]))
    && (forall i, j, s: Instant, t: Instant ::
          (0 <= i < j < |calls| && IssuesAt(calls[i], s) && IssuesAt(calls[j], t)) ==> NotAfter(s, t))
  }

  lemma PartIssuesAt(s: Step, c: Call)
    requires PartOf(s, c) && StepIssue(s).Some?
    ensures IssuesAt(c, StepIssue(s).value)
  {
  }

  lemma CallIsForward(steps: seq<Step>, c: Call)
    requires AllPartOf(steps, c) && TurnsInOrder(steps, c) && ForwardTick(c) && (c.Command? ==> |steps| == 1)
    ensures ForwardSteps(steps)
  {
    hide StampBefore;
    if c.TickCall? {
      var at: seq<nat> :| InTurn(steps, c.turns, at);
      forall i, j | 0 <= i <= j < |steps| && StepIssue(steps[i]).Some? && StepIssue(steps[j]).Some?
        ensures NotAfter(StepIssue(steps[i]).value, StepIssue(steps[j]).value)
      {
        assert PartOf(steps[i], c) && PartOf(steps[j], c);
        assert at[i] <= at[j];
      }
    } else {
      SameInstant();
    }
  }

  lemma SameInstant()
    ensures forall t: Stamp :: NotAfter(t, t)
  {
  }

  ghost predicate ReadyForCalls(db: Db, calls: seq<Call>) {
    && Inv(db) && CreditsOk(db) && GaplessDb(db) && ForwardClock(calls)
    && forall i, t: Instant :: 0 <= i < |calls| && IssuesAt(calls[i], t) ==> Past(db, t)
  }

  lemma ReadyForFirst(db: Db, calls: seq<Call>, steps: seq<Step>)
    requires calls != [] && ReadyForCalls(db, calls)
    requires AllPartOf(steps, calls[0]) && TurnsInOrder(steps, calls[0]) && (calls[0].Command? ==> |steps| == 1)
    ensures ReadyFor(db, steps)
  {
    hide Inv, CreditsOk, GaplessDb, Past, PartOf, StepIssue, IssuesAt, TurnsInOrder;
    CallIsForward(steps, calls[0]);
    forall i | 0 <= i < |steps| && StepIssue(steps[i]).Some?
      ensures Past(db, StepIssue(steps[i]).value)
    {
      PartIssuesAt(steps[i], calls[0]);
    }
  }

  lemma ReadyForLater(db: Db, calls: seq<Call>, steps: seq<Step>, j: nat, t: Instant)
    requires ReadyForCalls(db, calls) && 0 < j < |calls| && IssuesAt(calls[j], t) && AllPartOf(steps, calls[0])
    ensures Past(DoAll(db, steps), t)
  {
    hide Inv, CreditsOk, GaplessDb, Past, PartOf, StepIssue, IssuesAt, DoAll, NotAfter;
    forall i | 0 <= i < |steps| && StepIssue(steps[i]).Some?
      ensures NotAfter(StepIssue(steps[i]).value, t)
    {
      PartIssuesAt(steps[i], calls[0]);
    }
    StepsKeepPast(db, steps, t);
  }

  lemma {:induction false} ForwardRunsKeep(db: Db, calls: seq<Call>)
    requires ReadyForCalls(db, calls)
    ensures ReadyForCalls(RunCalls(db, calls), [])
    decreases |calls|
  {
    hide Inv, CreditsOk, GaplessDb, Past, IssuesAt, Apply, DoAll, NotAfter, AllPartOf, TurnsInOrder, StepIssue;
    if calls != [] {
      var steps := CallIsSteps(db, calls[0]);
      ReadyForFirst(db, calls, steps);
      ForwardStepsKeep(db, steps);
      var db' := Apply(db, calls[0]);
      forall i, t: Instant | 0 <= i < |calls| - 1 && IssuesAt(calls[1..][i], t)
        ensures Past(db', t)
      {
        ReadyForLater(db, calls, steps, i + 1, t);
      }
      ForwardRunsKeep(db', calls[1..]);
    }
  }

  /**
   Over any run of calls under a clock that never goes back, first seconds of years included, the
   invoice numbers of every year are exactly 1..n, each used once, and so are the credit-note numbers.
   */
  lemma NumbersAreGapless(calls: seq<Call>, year: nat)
    requires ForwardClock(calls)
    ensures var db := RunCalls(EMPTY, calls);
            && Gapless("INV", InvoiceNumbers(db), year)
            && Gapless("CN", CreditNumbers(db), year)
  {
    hide Inv, RunCalls, ForwardClock, Gapless, UniqueNumbers, Calm, IssuesAt;
    EmptyInv();
    EmptyNumbers();
    assert InvoiceNumbers(EMPTY) == [] && CreditNumbers(EMPTY) == [];
    ForwardRunsKeep(EMPTY, calls);
  }

  /** Whatever the clock says, no two invoices and no two credit notes ever share a number. */
  lemma NumbersAreUnique(calls: seq<Call>)
    ensures var db := RunCalls(EMPTY, calls);
            UniqueNumbers(InvoiceNumbers(db)) && UniqueNumbers(CreditNumbers(db))
  {
    hide Inv, RunCalls, UniqueNumbers;
    EmptyInv();
    EmptyNumbers();
    RunsKeepUnique(EMPTY, calls);
  }

  ghost predicate ColumnsUnique(db: Db) {
    UniqueNumbers(InvoiceNumbers(db)) && UniqueNumbers(CreditNumbers(db)) && CreditsOk(db)
  }

  lemma {:induction false} StepsKeepUnique(db: Db, steps: seq<Step>)
    requires Inv(db) && ColumnsUnique(db)
    ensures ColumnsUnique(DoAll(db, steps))
    decreases |steps|
  {
    hide Do, UniqueNumbers, Moves, CreditsOk, LedgerOk, KeysUnique, SendsOk, BusOk, Grows;
    if steps != [] {
      var s, db' := steps[0], Do(db, steps[0]);
      StepMovesInvoices(db, s);
      StepMovesCredits(db, s);
      MovesKeepUnique("INV", InvoiceNumbers(db), InvoiceNumbers(db'), InvoiceIssue(s));
      MovesKeepUnique("CN", CreditNumbers(db), CreditNumbers(db'), CreditIssue(s));
      OneStep(db, s);
      DoAllKeeps(db, [s]);
      StepsKeepUnique(db', steps[1..]);
    }
  }

  lemma {:induction false} RunsKeepUnique(db: Db, calls: seq<Call>)
    requires Inv(db) && ColumnsUnique(db)
    ensures ColumnsUnique(RunCalls(db, calls))
    decreases |calls|
  {
    hide ColumnsUnique, Inv, Apply;
    if calls != [] {
      var steps := CallIsSteps(db, calls[0]);
      DoAllKeeps(db, steps);
      StepsKeepUnique(db, steps);
      RunsKeepUnique(Apply(db, calls[0]), calls[1..]);
    }
  }

  // ---------------------------------------------------------------------------
  // One issue in the first second of a year
  // ---------------------------------------------------------------------------

  /** More rows of this year sit in its own first second than in the next year's. */
  ghost predicate Blocked(prefix: string, rows: seq<Numbered>, year: nat) {
    && year < 9999 && Gapless(prefix, rows, year)
    && |AtMidnight(rows, year)| > |AtMidnight(rows, year + 1)|
  }

  /** In a blocked year the allocator repeats a number, and the UNIQUE constraint refuses it. */
  lemma BlockedYearIsRefused(prefix: string, rows: seq<Numbered>, now: Instant)
    requires Blocked(prefix, rows, now.date.year)
    ensures Taken(rows, NextNumber(prefix, rows, now))
  {
    hide NextNumber, AtMidnight, Gapless, NumbersOf, Taken, NumberText;
    NextNumberDecided(prefix, rows, now);
    HeldIsTaken(rows, now.date.year, NextNumber(prefix, rows, now));
  }

  predicate InFirstSecondOf(now: Instant, year: int) {
    now.date.year == year && InFirstSecond(now)
  }

  lemma MovesKeepBlocked(prefix: string, a: seq<Numbered>, b: seq<Numbered>, issuedAt: Option<Instant>, year: nat)
    requires Blocked(prefix, a, year) && Moves(prefix, a, b, issuedAt)
    requires issuedAt.Some? ==> !InFirstSecondOf(issuedAt.value, year + 1)
    ensures Blocked(prefix, b, year) && IssuedIn(b, year) == IssuedIn(a, year)
  {
    hide NextNumber, Taken, Gapless;
    if b == a + [Numbered(None, None)] {
      AppendKeepsGapless(prefix, a, year);
      assert IssuedIn(b, year) == IssuedIn(a, year);
      assert AtMidnight(b, year) == AtMidnight(a, year) && AtMidnight(b, year + 1) == AtMidnight(a, year + 1);
    } else if b != a {
      var now := issuedAt.value;
      var id: nat :| IsIssue(prefix, a, b, id, now);
      if now.date.year == year {
        BlockedYearIsRefused(prefix, a, now);
      }
      OtherYearsKeepGapless(prefix, a, id, NextNumber(prefix, a, now), now, year);
      assert IssuedIn(b, year) == IssuedIn(a, year);
      assert AtMidnight(b, year) == AtMidnight(a, year) && AtMidnight(b, year + 1) == AtMidnight(a, year + 1);
    }
  }

  /** The first invoice issued in the first second of a year blocks that year. */
  lemma MidnightIssueBlocks(prefix: string, a: seq<Numbered>, b: seq<Numbered>, id: nat, now: Instant)
    requires Healthy(prefix, a) && IsIssue(prefix, a, b, id, now)
    requires InFirstSecond(now) && now.date.year < 9999
    ensures Blocked(prefix, b, now.date.year)
  {
    hide NextNumber, Taken, Gapless;
    var year := now.date.year;
    NoMidnights(prefix, a, year);
    NoMidnights(prefix, a, year + 1);
    NextKeepsGapless(prefix, a, id, now);
    assert AtMidnight(b, year) == {id} && AtMidnight(b, year + 1) == {};
  }

  /** No invoice of this transaction is issued in the first second of this year. */
  ghost predicate Avoids(c: Call, year: int) {
    && (c.Command? && c.step.IssueStep? ==> !InFirstSecondOf(c.step.env.now, year))
    && (c.TickCall? ==> forall n: nat :: !InFirstSecondOf(c.turns(n).issue.now, year))
  }

  lemma {:induction false} StepsKeepBlocked(db: Db, steps: seq<Step>, year: nat)
    requires Inv(db) && Blocked("INV", InvoiceNumbers(db), year)
    requires forall i :: 0 <= i < |steps| && InvoiceIssue(steps[i]).Some? ==>
               !InFirstSecondOf(InvoiceIssue(steps[i]).value, year + 1)
    ensures var db' := DoAll(db, steps);
            && Blocked("INV", InvoiceNumbers(db'), year)
            && IssuedIn(InvoiceNumbers(db'), year) == IssuedIn(InvoiceNumbers(db), year)
    decreases |steps|
  {
    hide Do, Blocked, Moves, LedgerOk, KeysUnique, SendsOk, BusOk, Grows, InFirstSecondOf, IssuedIn, InvoiceNumbers;
    if steps != [] {
      var s, db' := steps[0], Do(db, steps[0]);
      StepMovesInvoices(db, s);
      MovesKeepBlocked("INV", InvoiceNumbers(db), InvoiceNumbers(db'), InvoiceIssue(s), year);
      OneStep(db, s);
      DoAllKeeps(db, [s]);
      StepsKeepBlocked(db', steps[1..], year);
    }
  }

  lemma PartAvoids(s: Step, c: Call, year: int)
    requires Avoids(c, year) && PartOf(s, c) && InvoiceIssue(s).Some?
    ensures !InFirstSecondOf(InvoiceIssue(s).value, year)
  {
  }

  lemma {:induction false} RunsKeepBlocked(db: Db, calls: seq<Call>, year: nat)
    requires Inv(db) && Blocked("INV", InvoiceNumbers(db), year)
    requires forall i :: 0 <= i < |calls| ==> Avoids(calls[i], year + 1)
    ensures var db' := RunCalls(db, calls);
            && Blocked("INV", InvoiceNumbers(db'), year)
            && IssuedIn(InvoiceNumbers(db'), year) == IssuedIn(InvoiceNumbers(db), year)
    decreases |calls|
  {
    hide Inv, Blocked, Apply, Avoids, InFirstSecondOf, PartOf, IssuedIn, InvoiceNumbers, InvoiceIssue;
    if calls != [] {
      var steps := CallIsSteps(db, calls[0]);
      forall i | 0 <= i < |steps| && InvoiceIssue(steps[i]).Some?
        ensures !InFirstSecondOf(InvoiceIssue(steps[i]).value, year + 1)
      {
        PartAvoids(steps[i], calls[0], year + 1);
      }
      DoAllKeeps(db, steps);
      StepsKeepBlocked(db, steps, year);
      RunsKeepBlocked(Apply(db, calls[0]), calls[1..], year);
    }
  }

  /**
   A first-second issue does not break 1..n: it closes its year. After one invoice is issued in the first
   second of a year, no run that stays clear of the next year's first second issues another invoice in
   that year: every attempt fails on the number column and leaves the store as it is.
   */
  lemma MidnightIssueEndsTheYear(db: Db, cfg: T.Config, id: nat, env: Env, calls: seq<Call>,
                                 cfg': T.Config, id': nat, env': Env)
    requires Inv(db) && NumbersOk(db) && IssueInvoice(db, cfg, id, env).1.Success?
    requires InFirstSecond(env.now) && env.now.date.year < 9999
    requires forall i :: 0 <= i < |calls| ==> Avoids(calls[i], env.now.date.year + 1)
    requires env'.now.date.year == env.now.date.year
    ensures var issued, year := IssueInvoice(db, cfg, id, env).0, env.now.date.year;
            var later := RunCalls(issued, calls);
            && IssuedIn(InvoiceNumbers(later), year) == IssuedIn(InvoiceNumbers(issued), year)
            && IssueInvoice(later, cfg', id', env').0 == later
            && IssueInvoice(later, cfg', id', env').1.Failure?
  {
    hide Inv, NumbersOk, IssueInvoice, RunCalls, Avoids, InFirstSecond, Blocked, IssuedIn;
    var issued, year := IssueInvoice(db, cfg, id, env).0, env.now.date.year;
    IssueBlocks(db, cfg, id, env);
    IssueInv(db, cfg, id, env);
    RunsKeepBlocked(issued, calls, year);
    var later := RunCalls(issued, calls);
    BlockedYearIsRefused("INV", InvoiceNumbers(later), env'.now);
    TakenIsRefused(later, cfg', id', env');
  }

  lemma TakenIsRefused(db: Db, cfg: T.Config, id: nat, env: Env)
    requires Taken(InvoiceNumbers(db), NextNumber("INV", InvoiceNumbers(db), env.now))
    ensures IssueInvoice(db, cfg, id, env).0 == db && IssueInvoice(db, cfg, id, env).1.Failure?
  {
    hide Taken, NextNumber;
  }

  lemma IssueInv(db: Db, cfg: T.Config, id: nat, env: Env)
    requires Inv(db)
    ensures Inv(IssueInvoice(db, cfg, id, env).0)
  {
    hide IssueInvoice, Inv;
    var s := IssueStep(cfg, id, env);
    OneStep(db, s);
    DoAllKeeps(db, [s]);
  }

  lemma IssueBlocks(db: Db, cfg: T.Config, id: nat, env: Env)
    requires Inv(db) && NumbersOk(db) && IssueInvoice(db, cfg, id, env).1.Success?
    requires InFirstSecond(env.now) && env.now.date.year < 9999
    ensures Blocked("INV", InvoiceNumbers(IssueInvoice(db, cfg, id, env).0), env.now.date.year)
  {
    hide Blocked, Healthy, InFirstSecond;
    IssueNumbers(db, cfg, id, env);
    MidnightIssueBlocks("INV", InvoiceNumbers(db), InvoiceNumbers(IssueInvoice(db, cfg, id, env).0), id, env.now);
  }

  lemma IssueNumbers(db: Db, cfg: T.Config, id: nat, env: Env)
    requires LedgerOk(db) && IssueInvoice(db, cfg, id, env).1.Success?
    ensures IsIssue("INV", InvoiceNumbers(db), InvoiceNumbers(IssueInvoice(db, cfg, id, env).0), id, env.now)
  {
    hide NextNumber, Taken, TaxedLines, IssuedInvoice, Chained, TotalsAddUp, PaidMatchesState;
    assert InvoiceAt(db, id);
    var inv := db.invoices[id];
    IssuedFields(db, cfg, inv, db.customers[inv.customer], LinesOf(db, id), env.now);
  }

  const BUYER: T.Address := T.Address("CA", None)

  const ONE_LINE: DraftInput :=
    DraftInput(0, T.QuebecCa, M.Currency("CAD"), [DraftLine("Hosting", 1.0, 1.0, T.Standard)], None, None)

  /** Such a run exists: one customer, one draft, and its issue at 00:00:00 on New Year's Day. */
  lemma MidnightIssueHappens(cfg: T.Config, env: Env)
    requires env.now == YearStart(2027) && env.renders && env.commits
    ensures var db := RunCalls(EMPTY, [Command(SaveCustomer(0, BUYER)), Command(DraftStep(ONE_LINE, env))]);
            Inv(db) && NumbersOk(db) && IssueInvoice(db, cfg, 0, env).1.Success? && InFirstSecond(env.now)
  {
    hide Inv, NumbersOk, DraftedLines, DraftedInvoice, NextNumber;
    var first, second := Command(SaveCustomer(0, BUYER)), Command(DraftStep(ONE_LINE, env));
    var calls := [first, second];
    EmptyInv();
    EmptyNumbers();
    RunKeeps(EMPTY, calls);
    CalmRunsKeepNumbers(EMPTY, calls);
    var db := RunCalls(EMPTY, calls);
    var named := EMPTY.(customers := [BUYER]);
    assert calls[1..] == [second] && [second][1..] == [];
    assert Apply(EMPTY, first) == named;
    assert RunCalls(EMPTY, calls) == RunCalls(named, [second]) == Apply(named, second);
    FirstDraft(named, env);
    assert InvoiceNumbers(db) == [Numbered(None, None)];
  }

  lemma EmptyNumbers()
    ensures NumbersOk(EMPTY)
  {
    hide Healthy;
    EmptyHealthy("INV");
    EmptyHealthy("CN");
    assert InvoiceNumbers(EMPTY) == [] && CreditNumbers(EMPTY) == [];
  }

  lemma FirstDraft(db: Db, env: Env)
    requires db == EMPTY.(customers := [BUYER]) && env.commits
    ensures DraftInvoice(db, ONE_LINE, env).0 == Drafted(db, ONE_LINE, env.now)
    ensures var inv := DraftedInvoice(ONE_LINE);
            inv.state == State.Draft && inv.number == None && inv.issuedAt == None && inv.customer == 0
  {
    hide DraftedLines, Subtotals;
    var l := DraftLine("Hosting", 1.0, 1.0, T.Standard);
    assert ONE_LINE.lines == [l] && !Text.IsSpace(l.description[0]) && l.description[0] in l.description;
  }

  // ---------------------------------------------------------------------------
  // A clock that goes back over a first second
  // ---------------------------------------------------------------------------

  /** Two unnumbered rows: the first issued at New Year 2028, the second with the clock back in 2027. */
  lemma GapInTwoRows(a: seq<Numbered>, b: seq<Numbered>, early: Instant)
    requires a == [Numbered(None, None), Numbered(None, None)]
    requires b == Stamped(a, 0, NextNumber("INV", a, YearStart(2028)), YearStart(2028)) && early.date.year == 2027
    ensures !Taken(b, NextNumber("INV", b, early))
    ensures !Gapless("INV", Stamped(b, 1, NextNumber("INV", b, early), early), 2027)
  {
    hide Window, NumberText;
    assert b[1] == a[1] && b[0].issuedAt == Some(YearStart(2028));
    assert IssuedIn(b, 2027) == {};
    assert Gapless("INV", b, 2027);
    assert AtMidnight(b, 2028) == {0} && AtMidnight(b, 2027) == {};
    if Taken(b, NextNumber("INV", b, early)) {
      NumberTextInjective("INV", 2027, |Window(b, 2027)| + 1, 2028, |Window(a, 2028)| + 1);
    }
    CommittedIssueExactly("INV", b, 1, early);
  }

  /** The run of a customer and two drafts. */
  function TwoDrafts(env: Env): seq<Call> {
    [Command(SaveCustomer(0, BUYER)), Command(DraftStep(ONE_LINE, env)), Command(DraftStep(ONE_LINE, env))]
  }

  lemma TwoDraftsStore(env: Env)
    requires env.commits
    ensures var db := RunCalls(EMPTY, TwoDrafts(env));
            && Inv(db) && db.customers == [BUYER] && |db.invoices| == 2
            && forall i :: 0 <= i < 2 ==> IsPlainDraft(db.invoices[i])
  {
    hide DraftedLines, DraftedInvoice, Inv, ValidDraft, DraftInvoice;
    var calls := TwoDrafts(env);
    EmptyInv();
    RunKeeps(EMPTY, calls);
    var named := EMPTY.(customers := [BUYER]);
    assert calls[1..] == [calls[1], calls[2]] && calls[1..][1..] == [calls[2]] && [calls[2]][1..] == [];
    assert Apply(EMPTY, calls[0]) == named;
    var one := Apply(named, calls[1]);
    assert RunCalls(EMPTY, calls) == RunCalls(named, calls[1..]) == RunCalls(one, [calls[2]]) == Apply(one, calls[2]);
    PlainDraft(named, env);
    PlainDraft(one, env);
  }

  predicate IsPlainDraft(inv: Invoice) {
    inv.state == State.Draft && inv.number == None && inv.issuedAt == None && inv.customer == 0
  }

  /** Drafting the one-line invoice without a key always adds it. */
  lemma PlainDraft(db: Db, env: Env)
    requires db.customers == [BUYER] && env.commits
    ensures var db' := DraftInvoice(db, ONE_LINE, env).0;
            && db'.customers == db.customers && db'.invoices == db.invoices + [DraftedInvoice(ONE_LINE)]
            && IsPlainDraft(DraftedInvoice(ONE_LINE))
  {
    hide DraftedLines, Subtotals;
    var l := DraftLine("Hosting", 1.0, 1.0, T.Standard);
    assert ONE_LINE.lines == [l] && !Text.IsSpace(l.description[0]) && l.description[0] in l.description;
  }

  /** Issuing a plain draft of the one customer commits whenever its number is free. */
  lemma PlainIssue(db: Db, cfg: T.Config, id: nat, env: Env)
    requires Inv(db) && db.customers == [BUYER] && id < |db.invoices| && IsPlainDraft(db.invoices[id])
    requires env.renders && env.commits && !Taken(InvoiceNumbers(db), NextNumber("INV", InvoiceNumbers(db), env.now))
    ensures var (db', r) := IssueInvoice(db, cfg, id, env);
            && r.Success? && Inv(db') && db'.customers == db.customers && |db'.invoices| == |db.invoices|
            && IsIssue("INV", InvoiceNumbers(db), InvoiceNumbers(db'), id, env.now)
            && forall i :: 0 <= i < |db.invoices| && i != id ==> db'.invoices[i] == db.invoices[i]
  {
    hide KeysUnique, SendsOk, BusOk, LedgerOk, NextNumber, Taken, TaxedLines, IssuedInvoice, IsIssue;
    IssueInv(db, cfg, id, env);
    IssueNumbers(db, cfg, id, env);
  }

  /**
   Here 1..n does break: with the clock going back over a first second, the only invoice of 2027 is
   issued with the number 2.
   */
  lemma ClockBackLeavesGap(cfg: T.Config, newYear: Env, early: Env)
    requires newYear.now == YearStart(2028) && early.now.date.year == 2027
    requires newYear.renders && newYear.commits && early.renders && early.commits
    ensures var db := RunCalls(EMPTY, TwoDrafts(early) + [Command(IssueStep(cfg, 0, newYear)), Command(IssueStep(cfg, 1, early))]);
            IssuedIn(InvoiceNumbers(db), 2027) == {1} && !Gapless("INV", InvoiceNumbers(db), 2027)
  {
    hide Inv, TwoDrafts, IssueInvoice, Gapless, NextNumber, IssuedIn;
    var first, second := Command(IssueStep(cfg, 0, newYear)), Command(IssueStep(cfg, 1, early));
    TwoDraftsStore(early);
    var db := RunCalls(EMPTY, TwoDrafts(early));
    var one := IssueInvoice(db, cfg, 0, newYear).0;
    var two := IssueInvoice(one, cfg, 1, early).0;
    RunCallsAppend(EMPTY, TwoDrafts(early), [first, second]);
    TwoCalls(db, first, second);
    var a, b := InvoiceNumbers(db), InvoiceNumbers(one);
    assert a == [Numbered(None, None), Numbered(None, None)];
    PlainIssue(db, cfg, 0, newYear);
    GapInTwoRows(a, b, early.now);
    PlainIssue(one, cfg, 1, early);
    OnlyTheSecond(a, b, InvoiceNumbers(two), newYear.now, early.now);
  }

  lemma OnlyTheSecond(a: seq<Numbered>, b: seq<Numbered>, c: seq<Numbered>, late: Instant, early: Instant)
    requires |a| == 2 && IsIssue("INV", a, b, 0, late) && IsIssue("INV", b, c, 1, early)
    requires late.date.year == 2028 && early.date.year == 2027
    ensures IssuedIn(c, 2027) == {1}
  {
    hide NextNumber, Taken;
  }

  lemma TwoCalls(db: Db, first: Call, second: Call)
    ensures RunCalls(db, [first, second]) == Apply(Apply(db, first), second)
  {
    hide Apply;
    assert [first, second][1..] == [second] && [second][1..] == [];
    assert RunCalls(Apply(db, first), [second]) == RunCalls(Apply(Apply(db, first), second), []);
  }
}
