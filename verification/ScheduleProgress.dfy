/**
 Repeated ticks at one date catch up: what makes a schedule's turn succeed, what sticks it for good,
 and the measure every turn lowers (crates/commands/src/schedule.rs).
 */
module ScheduleProgress {
  import opened Wrappers
  import opened Calendar
  import opened Sorting
  import opened Cadences
  import opened Lifecycle
  import opened Tables
  import opened Ledger
  import opened Invariants
  import opened Scheduler
  import opened Runs
  import opened Safety
  import opened Numbering
  import opened NumberRuns
  import opened ScheduleRuns
  import opened Outbox
  import M = Money
  import T = Tax

  // ---------------------------------------------------------------------------
  // The measure
  // ---------------------------------------------------------------------------

  /** How far a due schedule lags: at least 1, and 0 once it is no longer due. */
  function Lag(s: Schedule, today: Day): nat {
    if IsDue(s, today) then
      OrdinalMonotone(s.nextRun, today);
      Ordinal(today) - Ordinal(s.nextRun) + 1
    else 0
  }

  function Measure(schedules: seq<Schedule>, today: Day): nat {
    if schedules == [] then 0
    else Measure(schedules[..|schedules| - 1], today) + Lag(schedules[|schedules| - 1], today)
  }

  lemma {:induction false} MeasureUpdate(schedules: seq<Schedule>, id: nat, s: Schedule, today: Day)
    requires id < |schedules|
    ensures Measure(schedules[id := s], today) + Lag(schedules[id], today) == Measure(schedules, today) + Lag(s, today)
  {
    hide Lag;
    var n := |schedules| - 1;
    if id == n {
      assert schedules[id := s][..n] == schedules[..n];
    } else {
      MeasureUpdate(schedules[..n], id, s, today);
      assert schedules[id := s][..n] == schedules[..n][id := s];
    }
  }

  lemma NextCycleLags(s: Schedule, today: Day)
    requires IsDue(s, today)
    ensures Lag(NextCycle(s), today) < Lag(s, today)
  {
    AdvanceIsLater(s.cadence, s.nextRun);
    OrdinalMonotone(s.nextRun, NextCycle(s).nextRun);
    OrdinalMonotone(s.nextRun, today);
  }

  /** A turn changes at most its own schedule's row, and does so exactly when it succeeds. */
  lemma RunOneSchedules(db: Db, cfg: T.Config, id: nat, turn: Turn)
    requires id < |db.schedules|
    ensures var (db', ok) := RunOne(db, cfg, id, turn);
            db'.schedules == if ok then db.schedules[id := NextCycle(db.schedules[id])] else db.schedules
  {
    hide Materialise, NextCycle;
    MaterialiseFrame(db, cfg, id, db.schedules[id], turn);
  }

  lemma {:induction false} RunAllMeasure(db: Db, cfg: T.Config, ids: seq<nat>, turns: nat -> Turn, ran: nat, today: Day)
    requires Distinct(ids) && AllDue(db.schedules, ids, today)
    ensures var (db', ran', ok) := RunAll(db, cfg, ids, turns, ran);
            && Measure(db'.schedules, today) + (ran' - ran) <= Measure(db.schedules, today)
            && ran <= ran' && (ok ==> ran' == ran + |ids|)
    decreases |ids|
  {
    hide RunOne, Measure, NextCycle, Lag, IsDue;
    if ids != [] {
      var (db', ok) := RunOne(db, cfg, ids[0], turns(ran));
      RunOneSchedules(db, cfg, ids[0], turns(ran));
      if ok {
        var s := db.schedules[ids[0]];
        MeasureUpdate(db.schedules, ids[0], NextCycle(s), today);
        NextCycleLags(s, today);
        RunAllMeasure(db', cfg, ids[1..], turns, ran + 1, today);
      }
    }
  }

  /** Whatever fails, a tick lowers the measure by at least the number of schedules it ran. */
  lemma TickLowersMeasure(db: Db, cfg: T.Config, today: Day, turns: nat -> Turn)
    requires PlainYear(today) && PlainRuns(db.schedules)
    ensures var (db', ran, ok) := Tick(db, cfg, today, turns);
            && Measure(db'.schedules, today) + ran <= Measure(db.schedules, today)
            && (ok ==> ran == |Due(db.schedules, today)|)
  {
    hide RunAll, Measure, Due, IsDue;
    DueIsExact(db.schedules, today);
    RunAllMeasure(db, cfg, Due(db.schedules, today), turns, 0, today);
  }

  // ---------------------------------------------------------------------------
  // What a turn needs
  // ---------------------------------------------------------------------------

  /** Nothing in the outside world fails during this turn. */
  predicate GoodTurn(t: Turn) {
    t.draft.commits && t.issue.renders && t.issue.commits && Calm(t.issue.now) && t.saves
  }

  /** The invoice of the current run, if it exists, can still be issued. */
  predicate PendingIsDraft(db: Db, id: nat)
    requires id < |db.schedules|
  {
    forall i :: 0 <= i < |db.invoices| && db.invoices[i].key == Some(RunKey(id, db.schedules[id].nextRun)) ==>
      IsIssuable(db, db.invoices[i])
  }

  predicate IsIssuable(db: Db, inv: Invoice) {
    inv.state == State.Draft && inv.customer < |db.customers| && db.customers[inv.customer].country != ""
  }

  /** The template passes draft validation and, when it auto-issues, its current run can be issued. */
  predicate Sound(db: Db, id: nat)
    requires id < |db.schedules|
  {
    var s := db.schedules[id];
    && ValidDraft(RunInput(id, s)) && s.customer < |db.customers|
    && (s.autoIssue ==> db.customers[s.customer].country != "" && PendingIsDraft(db, id))
  }

  lemma IssueSucceeds(db: Db, cfg: T.Config, id: nat, env: Env)
    requires id < |db.invoices| && IsIssuable(db, db.invoices[id])
    requires env.renders && env.commits && env.now.date.year < 9999 && Healthy("INV", InvoiceNumbers(db))
    ensures IssueInvoice(db, cfg, id, env).1 == Success(id)
  {
    hide NextNumber, Taken, Healthy;
    HealthyNumberIsFree("INV", InvoiceNumbers(db), env.now);
  }

  lemma DraftKeepsHealthy(db: Db, input: DraftInput, env: Env)
    requires Healthy("INV", InvoiceNumbers(db))
    ensures Healthy("INV", InvoiceNumbers(DraftInvoice(db, input, env).0))
  {
    hide Healthy, DraftInvoice, Moves;
    DraftMoves(db, input, env);
    MovesKeepHealthy("INV", InvoiceNumbers(db), InvoiceNumbers(DraftInvoice(db, input, env).0), None);
  }

  lemma SoundDraft(db: Db, id: nat, env: Env)
    requires id < |db.schedules| && Sound(db, id) && env.commits
    ensures var (db', r) := DraftInvoice(db, RunInput(id, db.schedules[id]), env);
            && r.Success? && r.value.invoice < |db'.invoices|
            && (db.schedules[id].autoIssue ==> IsIssuable(db', db'.invoices[r.value.invoice]))
  {
    hide ValidDraft, RunKey, DraftedLines, Subtotals, M.Currency.Round;
  }

  lemma MaterialiseSucceeds(db: Db, cfg: T.Config, id: nat, turn: Turn)
    requires id < |db.schedules| && Sound(db, id) && GoodTurn(turn) && Healthy("INV", InvoiceNumbers(db))
    ensures Materialise(db, cfg, id, db.schedules[id], turn).1
  {
    hide DraftInvoice, IssueInvoice, Sound, Healthy, IsIssuable, RunInput;
    SoundDraft(db, id, turn.draft);
    DraftKeepsHealthy(db, RunInput(id, db.schedules[id]), turn.draft);
    var (drafted, d) := DraftInvoice(db, RunInput(id, db.schedules[id]), turn.draft);
    if db.schedules[id].autoIssue {
      IssueSucceeds(drafted, cfg, d.value.invoice, turn.issue);
    }
  }

  /** A turn touches no invoice but the one of its own run. */
  lemma MaterialiseTouchesOnlyItsRun(db: Db, cfg: T.Config, id: nat, s: Schedule, turn: Turn, i: nat)
    requires var db' := Materialise(db, cfg, id, s, turn).0;
             i < |db'.invoices| && db'.invoices[i].key != Some(RunKey(id, s.nextRun))
    ensures i < |db.invoices| && Materialise(db, cfg, id, s, turn).0.invoices[i] == db.invoices[i]
  {
    hide RunKey, DraftInvoice, IssueInvoice;
    var (drafted, d) := DraftInvoice(db, RunInput(id, s), turn.draft);
    DraftTouches(db, RunInput(id, s), turn.draft);
    if d.Success? && s.autoIssue {
      IssueTouches(drafted, cfg, d.value.invoice, turn.issue);
    }
  }

  lemma DraftTouches(db: Db, input: DraftInput, env: Env)
    requires input.key.Some?
    ensures var (db', r) := DraftInvoice(db, input, env);
            && |db.invoices| <= |db'.invoices|
            && (forall i :: 0 <= i < |db.invoices| ==> db'.invoices[i] == db.invoices[i])
            && (forall i :: |db.invoices| <= i < |db'.invoices| ==> db'.invoices[i].key == input.key)
            && (r.Success? ==> r.value.invoice < |db'.invoices| && db'.invoices[r.value.invoice].key == input.key)
  {
    hide ValidDraft, DraftedLines, Subtotals, M.Currency.Round;
  }

  lemma IssueTouches(db: Db, cfg: T.Config, id: nat, env: Env)
    requires id < |db.invoices|
    ensures var db' := IssueInvoice(db, cfg, id, env).0;
            && |db'.invoices| == |db.invoices| && db'.invoices[id].key == db.invoices[id].key
            && forall i :: 0 <= i < |db.invoices| && i != id ==> db'.invoices[i] == db.invoices[i]
  {
    hide NextNumber, Taken, IssuedInvoice, TaxedLines;
    var inv := db.invoices[id];
    if inv.customer < |db.customers| {
      IssuedFields(db, cfg, inv, db.customers[inv.customer], LinesOf(db, id), env.now);
    }
  }

  // ---------------------------------------------------------------------------
  // Catching up
  // ---------------------------------------------------------------------------

  /** A store whose due schedules can all take their turn. */
  ghost predicate Good(db: Db, today: Day, horizon: Day) {
    && Inv(db) && SchedulesOk(db, horizon) && NumbersOk(db)
    && DateAtMost(today, horizon) && horizon.year <= 9998
    && forall id: nat :: id < |db.schedules| && IsDue(db.schedules[id], today) ==> Sound(db, id)
  }

  /** No invoice stands for the run after the current one. */
  lemma NextRunIsFresh(db: Db, id: nat, horizon: Day, i: nat)
    requires SchedulesOk(db, horizon) && id < |db.schedules| && i < |db.invoices|
    requires db.schedules[id].nextRun.year <= 9998
    ensures db.invoices[i].key != Some(RunKey(id, NextCycle(db.schedules[id]).nextRun))
  {
    hide HasRun, RunKey, InRange;
    var s, owners := db.schedules[id], Owners(db);
    assert OnSomeRun(owners, id, s, horizon);
    var k: nat :| OnRun(owners, id, s, k, horizon);
    AdvanceIsLater(s.cadence, s.nextRun);
    if owners[i].key == Some(RunKey(id, RunDate(s, k + 1))) {
      KeyOwner(owners, db.schedules, horizon, i, id, RunDate(s, k + 1));
      assert OneOf(owners[i], id, s, k);
      var j: nat :| j <= k && IsRun(owners[i], id, s, j);
      RunKeysDistinct(id, s, j, k + 1, k + 1);
    }
  }

  lemma MaterialiseKeepsCustomers(db: Db, cfg: T.Config, id: nat, s: Schedule, turn: Turn)
    ensures var db' := Materialise(db, cfg, id, s, turn).0;
            db'.customers == db.customers && db'.schedules == db.schedules
  {
    hide Materialise;
    MaterialiseFrame(db, cfg, id, s, turn);
  }

  /** A successful turn leaves every other schedule, and its own next cycle, able to take theirs. */
  lemma TurnKeepsSound(db: Db, cfg: T.Config, id: nat, turn: Turn, db': Db,
                         today: Day, horizon: Day, other: nat)
    requires Good(db, today, horizon) && id < |db.schedules| && IsDue(db.schedules[id], today)
    requires RunOne(db, cfg, id, turn) == (db', true)
    requires other < |db'.schedules| && IsDue(db'.schedules[other], today)
    ensures Sound(db', other)
  {
    hide Materialise, ValidDraft, RunKey, Advance, SchedulesAt, Inv, NumbersOk, InRange;
    var s := db.schedules[id];
    var (mid, ok) := Materialise(db, cfg, id, s, turn);
    MaterialiseKeepsCustomers(db, cfg, id, s, turn);
    assert Sound(db, id);
    if other == id {
      SameTemplate(id, s);
      InvLedger(db);
      DueInRangeOf(Owners(db), db.schedules, id, today, horizon);
      MaterialiseKeeps(db, cfg, id, turn, horizon);
      forall i | 0 <= i < |db'.invoices|
        ensures db'.invoices[i].key != Some(RunKey(id, db'.schedules[id].nextRun))
      {
        NextRunIsFresh(mid, id, horizon, i);
      }
    } else {
      assert Sound(db, other);
      forall i | 0 <= i < |db'.invoices| && db'.invoices[i].key == Some(RunKey(other, db.schedules[other].nextRun))
        ensures i < |db.invoices| && db'.invoices[i] == db.invoices[i]
      {
        if db'.invoices[i].key == Some(RunKey(id, s.nextRun)) {
          RunKeyInjective(id, s.nextRun, other, db.schedules[other].nextRun);
        }
        MaterialiseTouchesOnlyItsRun(db, cfg, id, s, turn, i);
      }
    }
  }

  lemma SameTemplate(id: nat, s: Schedule)
    ensures ValidDraft(RunInput(id, NextCycle(s))) == ValidDraft(RunInput(id, s))
    ensures NextCycle(s).customer == s.customer && NextCycle(s).autoIssue == s.autoIssue
  {
    hide RunKey;
  }

  lemma InvLedger(db: Db)
    requires Inv(db)
    ensures LedgerOk(db) && KeysUnique(db)
  {
    hide LedgerOk, KeysUnique, SendsOk, BusOk;
  }

  lemma TurnKeepsNumbers(db: Db, cfg: T.Config, id: nat, turn: Turn)
    requires Inv(db) && NumbersOk(db) && id < |db.schedules| && Calm(turn.issue.now)
    ensures NumbersOk(RunOne(db, cfg, id, turn).0)
  {
    hide Inv, NumbersOk, RunOne, Calm;
    var steps := TurnIsSteps(db, cfg, id, turn);
    CalmStepsKeepNumbers(db, steps);
  }

  lemma GoodTurnSucceeds(db: Db, cfg: T.Config, id: nat, turn: Turn, today: Day, horizon: Day)
    requires Good(db, today, horizon) && id < |db.schedules| && IsDue(db.schedules[id], today) && GoodTurn(turn)
    ensures RunOne(db, cfg, id, turn).1
    ensures Good(RunOne(db, cfg, id, turn).0, today, horizon)
  {
    hide Inv, SchedulesOk, Healthy, RunOne, Sound, IsDue;
    RunOneSucceeds(db, cfg, id, turn);
    InvLedger(db);
    RunOneKeeps(db, cfg, id, turn, today, horizon);
    RunOneInv(db, cfg, id, turn);
    TurnKeepsNumbers(db, cfg, id, turn);
    var db' := RunOne(db, cfg, id, turn).0;
    forall other: nat | other < |db'.schedules| && IsDue(db'.schedules[other], today)
      ensures Sound(db', other)
    {
      TurnKeepsSound(db, cfg, id, turn, db', today, horizon, other);
    }
  }

  lemma RunOneSucceeds(db: Db, cfg: T.Config, id: nat, turn: Turn)
    requires id < |db.schedules| && Sound(db, id) && GoodTurn(turn) && NumbersOk(db)
    ensures RunOne(db, cfg, id, turn).1
  {
    hide Materialise, Sound, Healthy;
    MaterialiseSucceeds(db, cfg, id, turn);
  }

  lemma {:induction false} RunAllSucceeds(db: Db, cfg: T.Config, ids: seq<nat>, turns: nat -> Turn, ran: nat,
                                          today: Day, horizon: Day)
    requires Good(db, today, horizon) && Distinct(ids) && AllDue(db.schedules, ids, today)
    requires forall n: nat :: GoodTurn(turns(n))
    ensures RunAll(db, cfg, ids, turns, ran).2 && Good(RunAll(db, cfg, ids, turns, ran).0, today, horizon)
    decreases |ids|
  {
    hide Good, RunOne, GoodTurn, NextCycle, IsDue;
    if ids != [] {
      GoodTurnSucceeds(db, cfg, ids[0], turns(ran), today, horizon);
      RunOneSchedules(db, cfg, ids[0], turns(ran));
      RunAllSucceeds(RunOne(db, cfg, ids[0], turns(ran)).0, cfg, ids[1..], turns, ran + 1, today, horizon);
    }
  }

  lemma GoodTick(db: Db, cfg: T.Config, today: Day, turns: nat -> Turn, horizon: Day)
    requires Good(db, today, horizon) && PlainYear(today) && forall n: nat :: GoodTurn(turns(n))
    ensures var (db', ran, ok) := Tick(db, cfg, today, turns);
            && ok && Good(db', today, horizon) && ran == |Due(db.schedules, today)|
            && Measure(db'.schedules, today) + ran <= Measure(db.schedules, today)
  {
    hide Inv, NumbersOk, Sound, RunAll, Due, IsDue, GoodTurn, SchedulesAt, Measure;
    PlainRunsOf(Owners(db), db.schedules, horizon);
    TickLowersMeasure(db, cfg, today, turns);
    DueIsExact(db.schedules, today);
    RunAllSucceeds(db, cfg, Due(db.schedules, today), turns, 0, today, horizon);
  }

  /** `n` ticks at the same date, each with its own world. */
  function Ticks(db: Db, cfg: T.Config, today: Day, worlds: nat -> nat -> Turn, n: nat): Db {
    if n == 0 then db
    else Tick(Ticks(db, cfg, today, worlds, n - 1), cfg, today, worlds(n - 1)).0
  }

  /**
   Repeating the tick at one date catches up: after at most as many ticks as the measure counts, no
   schedule is due, and further ticks change nothing.
   */
  lemma {:induction false} TicksCatchUp(db: Db, cfg: T.Config, today: Day, worlds: nat -> nat -> Turn, n: nat, horizon: Day)
    requires Good(db, today, horizon) && PlainYear(today) && forall i: nat, j: nat :: GoodTurn(worlds(i)(j))
    ensures var db' := Ticks(db, cfg, today, worlds, n);
            && Good(db', today, horizon)
            && (Due(db'.schedules, today) == [] || Measure(db'.schedules, today) + n <= Measure(db.schedules, today))
            && (n >= Measure(db.schedules, today) ==> forall id: nat :: id < |db'.schedules| ==> !IsDue(db'.schedules[id], today))
  {
    hide Good, Tick, GoodTurn, Due, Measure, IsDue;
    if n > 0 {
      var before := Ticks(db, cfg, today, worlds, n - 1);
      TicksCatchUp(db, cfg, today, worlds, n - 1, horizon);
      GoodTick(before, cfg, today, worlds(n - 1), horizon);
      if Due(before.schedules, today) == [] {
        IdleTick(before, cfg, today, worlds(n - 1));
      }
    }
    if n >= Measure(db.schedules, today) {
      NoneDue(Ticks(db, cfg, today, worlds, n), today, horizon);
    }
  }

  /**
   The same from the outside: after any run of polite calls that issues nothing in a first second,
   and with every due schedule able to take its turn, enough ticks leave nothing due.
   */
  lemma RunsCatchUp(calls: seq<Call>, cfg: T.Config, today: Day, worlds: nat -> nat -> Turn, n: nat, horizon: Day)
    requires forall i :: 0 <= i < |calls| ==> Polite(calls[i], horizon) && CalmCall(calls[i])
    requires PlainYear(today) && DateAtMost(today, horizon) && horizon.year <= 9998
    requires var db := RunCalls(EMPTY, calls);
             && n >= Measure(db.schedules, today)
             && forall id: nat :: id < |db.schedules| && IsDue(db.schedules[id], today) ==> Sound(db, id)
    requires forall i: nat, j: nat :: GoodTurn(worlds(i)(j))
    ensures var db' := Ticks(RunCalls(EMPTY, calls), cfg, today, worlds, n);
            forall id: nat :: id < |db'.schedules| ==> !IsDue(db'.schedules[id], today)
  {
    hide Inv, NumbersOk, SchedulesAt, Sound, IsDue, RunCalls, Ticks, Polite, CalmCall, GoodTurn, Measure;
    EmptyInv();
    EmptyNumbers();
    EmptySchedules(horizon);
    PoliteRunsKeep(EMPTY, calls, horizon);
    CalmRunsKeepNumbers(EMPTY, calls);
    TicksCatchUp(RunCalls(EMPTY, calls), cfg, today, worlds, n, horizon);
  }

  lemma EmptySchedules(horizon: Day)
    ensures SchedulesOk(EMPTY, horizon)
  {
    assert Owners(EMPTY) == [];
  }

  lemma IdleTick(db: Db, cfg: T.Config, today: Day, turns: nat -> Turn)
    requires Due(db.schedules, today) == []
    ensures Tick(db, cfg, today, turns) == (db, 0, true)
  {
    hide Due;
  }

  lemma NoneDue(db: Db, today: Day, horizon: Day)
    requires Good(db, today, horizon) && PlainYear(today)
    requires Due(db.schedules, today) == [] || Measure(db.schedules, today) == 0
    ensures forall id: nat :: id < |db.schedules| ==> !IsDue(db.schedules[id], today)
  {
    hide Inv, NumbersOk, Sound, Due, SchedulesAt, IsDue, Measure;
    PlainRunsOf(Owners(db), db.schedules, horizon);
    DueIsExact(db.schedules, today);
    forall id: nat | id < |db.schedules|
      ensures !IsDue(db.schedules[id], today)
    {
      LagWithin(db.schedules, id, today);
    }
  }

  lemma {:induction false} LagWithin(schedules: seq<Schedule>, id: nat, today: Day)
    requires id < |schedules|
    ensures Lag(schedules[id], today) <= Measure(schedules, today)
    ensures Measure(schedules, today) == 0 ==> !IsDue(schedules[id], today)
  {
    var n := |schedules| - 1;
    if id < n {
      LagWithin(schedules[..n], id, today);
    }
    if IsDue(schedules[id], today) {
      OrdinalMonotone(schedules[id].nextRun, today);
    }
  }

  // ---------------------------------------------------------------------------
  // A lost save after an auto-issue
  // ---------------------------------------------------------------------------

  /** The current run of an auto-issuing schedule has an invoice that has already left Draft. */
  predicate Stuck(db: Db, id: nat)
    requires id < |db.schedules|
  {
    && db.schedules[id].autoIssue
    && exists i :: 0 <= i < |db.invoices| && IsSpent(db.invoices[i], RunKey(id, db.schedules[id].nextRun))
  }

  predicate IsSpent(inv: Invoice, key: string) {
    inv.key == Some(key) && inv.state != State.Draft
  }

  /** Then every turn fails on the illegal issue and changes nothing. */
  lemma StuckTurnFails(db: Db, cfg: T.Config, id: nat, turn: Turn)
    requires KeysUnique(db) && id < |db.schedules| && Stuck(db, id)
    ensures RunOne(db, cfg, id, turn) == (db, false)
  {
    hide RunKey, ValidDraft, TaxedLines, IssuedInvoice, NextNumber, Taken, DraftedInvoice, DraftedLines;
    var s := db.schedules[id];
    var i :| 0 <= i < |db.invoices| && IsSpent(db.invoices[i], RunKey(id, s.nextRun));
    var found := FindKey(db.invoices, RunKey(id, s.nextRun));
    assert found == Some(i);
  }

  /** And a tick that reaches it first runs nothing at all, neither this schedule nor those behind it. */
  lemma StuckScheduleBlocksTheTick(db: Db, cfg: T.Config, today: Day, turns: nat -> Turn)
    requires KeysUnique(db) && Due(db.schedules, today) != []
    requires var first := Due(db.schedules, today)[0]; first < |db.schedules| && Stuck(db, first)
    ensures Tick(db, cfg, today, turns) == (db, 0, false)
  {
    hide RunOne, Due, Stuck;
    StuckTurnFails(db, cfg, Due(db.schedules, today)[0], turns(0));
  }

  predicate HasCountry(db: Db, customer: nat) {
    customer < |db.customers| ==> db.customers[customer].country != ""
  }

  /** The tax engine can place the schedule's customer and the buyer of its current invoice. */
  predicate BuyersHaveCountries(db: Db, id: nat)
    requires id < |db.schedules|
  {
    && HasCountry(db, db.schedules[id].customer)
    && forall i :: 0 <= i < |db.invoices| && db.invoices[i].key == Some(RunKey(id, db.schedules[id].nextRun)) ==>
         HasCountry(db, db.invoices[i].customer)
  }

  /** Exactly a spent invoice stops a turn that nothing outside stops. */
  lemma TurnSucceedsUnlessStuck(db: Db, cfg: T.Config, id: nat, turn: Turn)
    requires Inv(db) && NumbersOk(db) && id < |db.schedules| && GoodTurn(turn)
    requires ValidDraft(RunInput(id, db.schedules[id])) && db.schedules[id].customer < |db.customers|
    requires db.schedules[id].autoIssue ==> BuyersHaveCountries(db, id)
    ensures RunOne(db, cfg, id, turn).1 <==> !Stuck(db, id)
  {
    hide RunOne, RunKey, ValidDraft, Healthy, InvoiceOk, SendsOk, BusOk;
    if Stuck(db, id) {
      StuckTurnFails(db, cfg, id, turn);
    } else {
      forall i: nat | i < |db.invoices| && db.invoices[i].key == Some(RunKey(id, db.schedules[id].nextRun))
                      && db.schedules[id].autoIssue
        ensures IsIssuable(db, db.invoices[i])
      {
        assert InvoiceAt(db, i);
        assert !IsSpent(db.invoices[i], RunKey(id, db.schedules[id].nextRun));
      }
      RunOneSucceeds(db, cfg, id, turn);
    }
  }

  /** This is how it comes about: the issue commits and the save does not. */
  lemma LostSaveSticks(db: Db, cfg: T.Config, id: nat, turn: Turn, today: Day, horizon: Day)
    requires Good(db, today, horizon) && id < |db.schedules| && IsDue(db.schedules[id], today)
    requires db.schedules[id].autoIssue && GoodTurn(turn.(saves := true)) && !turn.saves
    ensures var (db', ok) := RunOne(db, cfg, id, turn);
            && !ok && db'.schedules == db.schedules && Stuck(db', id)
  {
    hide Materialise, SchedulesAt, Healthy, Sound, LedgerOk, KeysUnique, SendsOk, BusOk, RunKey;
    var s := db.schedules[id];
    MaterialiseSucceeds(db, cfg, id, turn.(saves := true));
    SameMaterialise(db, cfg, id, s, turn);
    MaterialiseKeepsCustomers(db, cfg, id, s, turn);
    var i := MaterialiseSpends(db, cfg, id, s, turn);
  }

  lemma SameMaterialise(db: Db, cfg: T.Config, id: nat, s: Schedule, turn: Turn)
    ensures Materialise(db, cfg, id, s, turn.(saves := true)) == Materialise(db, cfg, id, s, turn)
  {
    hide DraftInvoice, IssueInvoice;
  }

  lemma MaterialiseSpends(db: Db, cfg: T.Config, id: nat, s: Schedule, turn: Turn) returns (i: nat)
    requires s.autoIssue && Materialise(db, cfg, id, s, turn).1
    ensures var db' := Materialise(db, cfg, id, s, turn).0;
            i < |db'.invoices| && IsSpent(db'.invoices[i], RunKey(id, s.nextRun))
  {
    hide DraftInvoice, RunKey, TaxedLines, NextNumber, Taken, IssuedInvoice;
    var (drafted, d) := DraftInvoice(db, RunInput(id, s), turn.draft);
    DraftTouches(db, RunInput(id, s), turn.draft);
    i := d.value.invoice;
    var inv := drafted.invoices[i];
    IssuedFields(drafted, cfg, inv, drafted.customers[inv.customer], LinesOf(drafted, i), turn.issue.now);
  }
}
