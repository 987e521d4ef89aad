/**
 Which run dates of a schedule get an invoice, over any run of calls in which ticks may stop
 between the draft, the issue and the save (crates/commands/src/schedule.rs).
 */
module ScheduleRuns {
  import opened Wrappers
  import opened Calendar
  import opened Text
  import opened Timestamps
  import opened Sorting
  import opened Cadences
  import opened Tables
  import opened Ledger
  import opened Invariants
  import opened Inbox
  import opened Scheduler
  import opened Runs
  import opened Safety
  import opened Outbox
  import M = Money
  import T = Tax

  // ---------------------------------------------------------------------------
  // Invoices and the runs they stand for
  // ---------------------------------------------------------------------------

  /** The two invoice columns a scheduled draft sets. */
  datatype Owned = Owned(key: Option<string>, schedule: Option<nat>)

  function Owners(db: Db): (owners: seq<Owned>)
    ensures |owners| == |db.invoices|
    ensures forall i :: 0 <= i < |owners| ==> owners[i] == Owned(db.invoices[i].key, db.invoices[i].schedule)
  {
    seq(|db.invoices|, i requires 0 <= i < |db.invoices| => Owned(db.invoices[i].key, db.invoices[i].schedule))
  }

  /** The `j`-th run date of a schedule: its start advanced `j` times. */
  function RunDate(s: Schedule, j: nat): Day {
    Run(s.cadence, s.start, j)
  }

  predicate IsRun(o: Owned, id: nat, s: Schedule, j: nat) {
    o == Owned(Some(RunKey(id, RunDate(s, j))), Some(id))
  }

  predicate HasRun(owners: seq<Owned>, id: nat, s: Schedule, j: nat) {
    exists i :: 0 <= i < |owners| && IsRun(owners[i], id, s, j)
  }

  predicate WithinEnd(s: Schedule, d: Date) {
    s.end.Some? ==> !DateBefore(s.end.value, d)
  }

  /** Fit to be materialised: not after the horizon, not after the end. */
  predicate InRange(s: Schedule, d: Date, horizon: Day) {
    DateAtMost(d, horizon) && WithinEnd(s, d)
  }

  /**
   The schedule has saved `k` cycles: each of its first `k` runs has an invoice, run `k` may have one
   (a tick that stopped before the save), and no invoice of this schedule stands for anything else.
   */
  ghost predicate OnRun(owners: seq<Owned>, id: nat, s: Schedule, k: nat, horizon: Day) {
    && s.nextRun == RunDate(s, k)
    && s.lastRun == (if k == 0 then None else Some(RunDate(s, k - 1)))
    && PlainYear(s.start) && PlainYear(s.nextRun)
    && (forall j: nat :: j < k ==> HasRun(owners, id, s, j))
    && (forall i :: 0 <= i < |owners| && owners[i].schedule == Some(id) ==> OneOf(owners[i], id, s, k))
    && (k > 0 ==> InRange(s, RunDate(s, k - 1), horizon))
    && (HasRun(owners, id, s, k) ==> InRange(s, RunDate(s, k), horizon))
    && (s.state != Cancelled ==> WithinEnd(s, s.nextRun))
  }

  ghost predicate OneOf(o: Owned, id: nat, s: Schedule, k: nat) {
    exists j: nat :: j <= k && IsRun(o, id, s, j)
  }

  ghost predicate OnSomeRun(owners: seq<Owned>, id: nat, s: Schedule, horizon: Day) {
    exists k: nat :: OnRun(owners, id, s, k, horizon)
  }

  /** Scheduled invoices name a schedule, and no other invoice carries a key of the scheduler's form. */
  predicate OwnersOk(owners: seq<Owned>, schedules: nat) {
    forall i :: 0 <= i < |owners| ==>
      match owners[i].schedule
      case Some(id) => id < schedules
      case None => owners[i].key.Some? ==> !("schedule:" <= owners[i].key.value)
  }

  ghost predicate SchedulesAt(owners: seq<Owned>, schedules: seq<Schedule>, horizon: Day) {
    && OwnersOk(owners, |schedules|)
    && forall id: nat :: id < |schedules| ==> OnSomeRun(owners, id, schedules[id], horizon)
  }

  ghost predicate SchedulesOk(db: Db, horizon: Day) {
    SchedulesAt(Owners(db), db.schedules, horizon)
  }

  // ---------------------------------------------------------------------------
  // Keys
  // ---------------------------------------------------------------------------

  lemma RunKeyInjective(a: nat, d: Day, b: nat, e: Day)
    requires RunKey(a, d) == RunKey(b, e)
    ensures a == b && DateText(d) == DateText(e)
  {
    hide Dec, DateText;
    var x, y := "run:" + DateText(d), "run:" + DateText(e);
    assert RunKey(a, d) == "schedule:" + (Dec(a) + ":" + x);
    assert RunKey(b, e) == "schedule:" + (Dec(b) + ":" + y);
    CancelPrefix("schedule:", Dec(a) + ":" + x, Dec(b) + ":" + y);
    SplitOnceUnique(Dec(a), ':', x);
    SplitOnceUnique(Dec(b), ':', y);
    ValueOfDec(a);
    ValueOfDec(b);
    CancelPrefix("run:", DateText(d), DateText(e));
  }

  lemma RunKeyPrefix(id: nat, d: Day)
    ensures "schedule:" <= RunKey(id, d)
  {
    assert RunKey(id, d)[..|"schedule:"|] == "schedule:";
  }

  lemma RunYears(s: Schedule, i: nat, j: nat)
    requires i <= j
    ensures s.start.year <= RunDate(s, i).year <= RunDate(s, j).year
  {
    if i < j {
      RunsIncrease(s.cadence, s.start, i, j);
    }
    if 0 < i {
      RunsIncrease(s.cadence, s.start, 0, i);
    }
  }

  /** Two runs of one schedule share a key only when they are the same run. */
  lemma RunKeysDistinct(id: nat, s: Schedule, i: nat, j: nat, k: nat)
    requires i <= k && j <= k && PlainYear(s.start) && PlainYear(RunDate(s, k))
    requires RunKey(id, RunDate(s, i)) == RunKey(id, RunDate(s, j))
    ensures i == j
  {
    hide RunKey, DateText;
    RunKeyInjective(id, RunDate(s, i), id, RunDate(s, j));
    RunYears(s, i, k);
    RunYears(s, j, k);
    DateTextOrder(RunDate(s, i), RunDate(s, j));
    RunsDistinct(s.cadence, s.start, i, j);
  }

  /** An invoice that carries the key of a run belongs to that schedule. */
  lemma KeyOwner(owners: seq<Owned>, schedules: seq<Schedule>, horizon: Day, i: nat, id: nat, d: Day)
    requires SchedulesAt(owners, schedules, horizon) && i < |owners| && id < |schedules|
    requires owners[i].key == Some(RunKey(id, d))
    ensures owners[i].schedule == Some(id)
  {
    hide RunKey, HasRun, InRange;
    RunKeyPrefix(id, d);
    assert owners[i].schedule.Some?;
    var other := owners[i].schedule.value;
    assert OnSomeRun(owners, other, schedules[other], horizon);
    var k: nat :| OnRun(owners, other, schedules[other], k, horizon);
    assert OneOf(owners[i], other, schedules[other], k);
    var j: nat :| j <= k && IsRun(owners[i], other, schedules[other], j);
    RunKeyInjective(id, d, other, RunDate(schedules[other], j));
  }

  // ---------------------------------------------------------------------------
  // What keeps it
  // ---------------------------------------------------------------------------

  /** An invoice of another owner does not concern this schedule. */
  lemma StrangerKeeps(owners: seq<Owned>, o: Owned, id: nat, s: Schedule, k: nat, horizon: Day)
    requires OnRun(owners, id, s, k, horizon) && o.schedule != Some(id)
    ensures OnRun(owners + [o], id, s, k, horizon)
  {
    hide RunKey, InRange, WithinEnd, RunDate;
    forall j: nat
      ensures HasRun(owners + [o], id, s, j) <==> HasRun(owners, id, s, j)
    {
      HasRunAppend(owners, o, id, s, j);
    }
  }

  lemma HasRunAppend(owners: seq<Owned>, o: Owned, id: nat, s: Schedule, j: nat)
    ensures HasRun(owners + [o], id, s, j) <==> HasRun(owners, id, s, j) || IsRun(o, id, s, j)
  {
    hide IsRun;
    var all := owners + [o];
    if HasRun(owners, id, s, j) {
      var i :| 0 <= i < |owners| && IsRun(owners[i], id, s, j);
      assert all[i] == owners[i];
    }
    if IsRun(o, id, s, j) {
      assert all[|owners|] == o;
    }
  }

  /** The invoice of the next run itself. */
  lemma OwnRunKeeps(owners: seq<Owned>, o: Owned, id: nat, s: Schedule, k: nat, horizon: Day)
    requires OnRun(owners, id, s, k, horizon) && IsRun(o, id, s, k) && InRange(s, s.nextRun, horizon)
    ensures OnRun(owners + [o], id, s, k, horizon) && HasRun(owners + [o], id, s, k)
  {
    hide RunKey, InRange, WithinEnd, RunDate, HasRun, IsRun;
    forall j: nat
      ensures HasRun(owners, id, s, j) ==> HasRun(owners + [o], id, s, j)
    {
      HasRunAppend(owners, o, id, s, j);
    }
    HasRunAppend(owners, o, id, s, k);
    assert OneOf(o, id, s, k);
    assert IsRun(o, id, s, k);
  }

  /** Saving the next cycle once the run has its invoice. */
  lemma NextCycleKeeps(owners: seq<Owned>, id: nat, s: Schedule, k: nat, horizon: Day)
    requires OnRun(owners, id, s, k, horizon) && HasRun(owners, id, s, k) && s.nextRun.year <= 9998
    ensures OnRun(owners, id, NextCycle(s), k + 1, horizon)
  {
    hide RunKey, InRange;
    var s' := NextCycle(s);
    AdvanceIsLater(s.cadence, s.nextRun);
    SameRuns(owners, id, s, s', horizon);
    forall i | 0 <= i < |owners| && owners[i].schedule == Some(id)
      ensures OneOf(owners[i], id, s', k + 1) && !IsRun(owners[i], id, s', k + 1)
    {
      assert OneOf(owners[i], id, s, k);
      var j: nat :| j <= k && IsRun(owners[i], id, s, j);
      assert IsRun(owners[i], id, s', j);
      if IsRun(owners[i], id, s', k + 1) {
        RunKeysDistinct(id, s', j, k + 1, k + 1);
      }
    }
  }

  /** Rows that differ only in where they stand have the same runs. */
  lemma SameRuns(owners: seq<Owned>, id: nat, s: Schedule, s': Schedule, horizon: Day)
    requires s' == s.(nextRun := s'.nextRun, lastRun := s'.lastRun, state := s'.state)
    ensures forall j: nat :: RunDate(s', j) == RunDate(s, j)
    ensures forall j: nat :: HasRun(owners, id, s', j) == HasRun(owners, id, s, j)
    ensures forall d: Date :: InRange(s', d, horizon) == InRange(s, d, horizon)
  {
    hide RunKey;
  }

  lemma AddStranger(owners: seq<Owned>, schedules: seq<Schedule>, horizon: Day, o: Owned)
    requires SchedulesAt(owners, schedules, horizon)
    requires o.schedule.None? && (o.key.Some? ==> !("schedule:" <= o.key.value))
    ensures SchedulesAt(owners + [o], schedules, horizon)
  {
    hide OnRun;
    forall id: nat | id < |schedules|
      ensures OnSomeRun(owners + [o], id, schedules[id], horizon)
    {
      var k: nat :| OnRun(owners, id, schedules[id], k, horizon);
      StrangerKeeps(owners, o, id, schedules[id], k, horizon);
    }
  }

  /** Replacing one schedule's row, or its invoices, leaves the other schedules where they are. */
  lemma AddOwn(owners: seq<Owned>, schedules: seq<Schedule>, horizon: Day, o: Owned, id: nat)
    requires SchedulesAt(owners, schedules, horizon) && id < |schedules|
    requires o == Owned(Some(RunKey(id, schedules[id].nextRun)), Some(id))
    requires InRange(schedules[id], schedules[id].nextRun, horizon)
    ensures SchedulesAt(owners + [o], schedules, horizon)
  {
    hide InRange, RunKey, HasRun;
    forall i: nat | i < |schedules|
      ensures OnSomeRun(owners + [o], i, schedules[i], horizon)
    {
      assert OnSomeRun(owners, i, schedules[i], horizon);
      var k: nat :| OnRun(owners, i, schedules[i], k, horizon);
      if i == id {
        assert IsRun(o, id, schedules[id], k);
        OwnRunKeeps(owners, o, id, schedules[id], k, horizon);
      } else {
        StrangerKeeps(owners, o, i, schedules[i], k, horizon);
      }
    }
  }

  lemma SaveRow(owners: seq<Owned>, schedules: seq<Schedule>, horizon: Day, id: nat, s: Schedule)
    requires SchedulesAt(owners, schedules, horizon) && id < |schedules|
    requires OnSomeRun(owners, id, s, horizon)
    ensures SchedulesAt(owners, schedules[id := s], horizon)
  {
    hide OnSomeRun;
  }

  /** A new schedule starts at run 0 and owns nothing. */
  lemma NewRow(owners: seq<Owned>, schedules: seq<Schedule>, horizon: Day, s: Schedule)
    requires SchedulesAt(owners, schedules, horizon)
    requires s.nextRun == s.start && s.lastRun == None && s.state == Active && PlainYear(s.start) && WithinEnd(s, s.start)
    ensures SchedulesAt(owners, schedules + [s], horizon)
  {
    hide RunKey, InRange, WithinEnd;
    var n := |schedules|;
    assert forall i :: 0 <= i < |owners| ==> owners[i].schedule != Some(n);
    assert OnRun(owners, n, s, 0, horizon);
    forall id: nat | id < n + 1
      ensures OnSomeRun(owners, id, (schedules + [s])[id], horizon)
    {
      if id < n {
        assert OnSomeRun(owners, id, schedules[id], horizon);
      }
    }
  }

  // ---------------------------------------------------------------------------
  // Calls
  // ---------------------------------------------------------------------------

  /** The key a caller may choose: not one of the scheduler's form. */
  predicate PoliteKey(key: Option<string>) {
    key.Some? ==> !("schedule:" <= key.value)
  }

  predicate PoliteStep(s: Step) {
    && !s.SaveSchedules?
    && (s.DraftStep? ==> s.input.schedule.None? && PoliteKey(s.input.key))
  }

  /**
   Callers leave the scheduler's keys and the schedules table to the scheduler, schedules start in a
   year of four digits, and ticks happen up to the horizon.
   */
  predicate Polite(c: Call, horizon: Day) {
    match c
    case Command(step) => PoliteStep(step)
    case Deliver(d) => d.payload.ChargeCreated? && d.payload.customer.Some? ==> PoliteKey(ChargeInput(d).key)
    case NewSchedule(input, _) => PlainYear(input.start)
    case SetSchedule(_, _, _) => true
    case TickCall(_, now, _) => DateAtMost(now.date, horizon)
  }

  lemma OwnersOfStep(db: Db, s: Step)
    requires LedgerOk(db) && !s.DraftStep?
    ensures Owners(Do(db, s)) == Owners(db)
  {
    hide Do, LedgerOk;
    DoGrows(db, s);
    OnlyDraftsAdd(db, s);
    var db' := Do(db, s);
    forall i | 0 <= i < |db.invoices|
      ensures Owners(db')[i] == Owners(db)[i]
    {
      assert InvoiceGrows(db.invoices[i], LinesOf(db, i), db'.invoices[i], LinesOf(db', i));
    }
  }

  lemma OwnersOfDraft(db: Db, input: DraftInput, env: Env)
    ensures var (db', r) := DraftInvoice(db, input, env);
            && (Owners(db') == Owners(db) || Owners(db') == Owners(db) + [Owned(input.key, input.schedule)])
            && (r.Success? ==> r.value.invoice < |db'.invoices|
                               && (input.key.Some? ==> db'.invoices[r.value.invoice].key == input.key))
            && (r.Failure? ==> db' == db)
  {
    hide ValidDraft, DraftedLines, Subtotals, M.Currency.Round;
  }

  lemma SchedulesOfStep(db: Db, s: Step)
    requires !s.SaveSchedules?
    ensures Do(db, s).schedules == db.schedules
  {
    hide DraftInvoice, IssueInvoice, Relay, Scheme, LocalDestination;
    match s {
      case DraftStep(input, env) => DraftFrame(db, input, env);
      case IssueStep(cfg, id, env) => IssueFrame(db, cfg, id, env);
      case RelayStep(limit, faults) => RelayOnlyAdds(db, limit, faults);
      case _ =>
    }
  }

  lemma PoliteStepKeeps(db: Db, s: Step, horizon: Day)
    requires LedgerOk(db) && SchedulesOk(db, horizon) && PoliteStep(s)
    ensures SchedulesOk(Do(db, s), horizon)
  {
    hide LedgerOk, OnSomeRun, IssueInvoice, SendInvoice, Relay, DraftInvoice;
    SchedulesOfStep(db, s);
    if s.DraftStep? {
      OwnersOfDraft(db, s.input, s.env);
      AddStranger(Owners(db), db.schedules, horizon, Owned(s.input.key, None));
    } else {
      OwnersOfStep(db, s);
    }
  }

  lemma {:induction false} PoliteStepsKeep(db: Db, steps: seq<Step>, horizon: Day)
    requires Inv(db) && SchedulesOk(db, horizon) && forall i :: 0 <= i < |steps| ==> PoliteStep(steps[i])
    ensures SchedulesOk(DoAll(db, steps), horizon)
    decreases |steps|
  {
    hide Do, SchedulesOk, LedgerOk, KeysUnique, SendsOk, BusOk, Grows, PoliteStep;
    if steps != [] {
      PoliteStepKeeps(db, steps[0], horizon);
      OneStep(db, steps[0]);
      DoAllKeeps(db, [steps[0]]);
      PoliteStepsKeep(Do(db, steps[0]), steps[1..], horizon);
    }
  }

  // ---------------------------------------------------------------------------
  // Ticks
  // ---------------------------------------------------------------------------

  lemma DueInRangeOf(owners: seq<Owned>, schedules: seq<Schedule>, id: nat, today: Day, horizon: Day)
    requires SchedulesAt(owners, schedules, horizon) && id < |schedules|
    requires IsDue(schedules[id], today) && DateAtMost(today, horizon)
    ensures InRange(schedules[id], schedules[id].nextRun, horizon)
  {
    hide HasRun, RunKey, OneOf;
    assert OnSomeRun(owners, id, schedules[id], horizon);
  }

  /** The schedule's current run has its invoice. */
  ghost predicate RunExists(db: Db, id: nat)
    requires id < |db.schedules|
  {
    exists i :: 0 <= i < |db.invoices|
                && Owners(db)[i] == Owned(Some(RunKey(id, db.schedules[id].nextRun)), Some(id))
  }

  lemma ScheduledDraftKeeps(db: Db, id: nat, env: Env, horizon: Day)
    requires SchedulesOk(db, horizon) && id < |db.schedules|
    requires InRange(db.schedules[id], db.schedules[id].nextRun, horizon)
    ensures var (db', r) := DraftInvoice(db, RunInput(id, db.schedules[id]), env);
            && SchedulesOk(db', horizon) && db'.schedules == db.schedules
            && (r.Success? ==> RunExists(db', id))
  {
    hide DraftInvoice, OnSomeRun, InRange, RunKey;
    var s := db.schedules[id];
    var (db', r) := DraftInvoice(db, RunInput(id, s), env);
    DraftFrame(db, RunInput(id, s), env);
    OwnersOfDraft(db, RunInput(id, s), env);
    if Owners(db') != Owners(db) {
      AddOwn(Owners(db), db.schedules, horizon, Owned(Some(RunKey(id, s.nextRun)), Some(id)), id);
    }
    if r.Success? {
      KeyOwner(Owners(db'), db'.schedules, horizon, r.value.invoice, id, s.nextRun);
      assert Owners(db')[r.value.invoice] == Owned(Some(RunKey(id, s.nextRun)), Some(id));
    }
  }

  lemma IssueKeepsSchedules(db: Db, cfg: T.Config, invoice: nat, env: Env)
    requires LedgerOk(db)
    ensures var db' := IssueInvoice(db, cfg, invoice, env).0;
            Owners(db') == Owners(db) && db'.schedules == db.schedules
  {
    hide LedgerOk, IssueInvoice;
    IssueFrame(db, cfg, invoice, env);
    OwnersOfStep(db, IssueStep(cfg, invoice, env));
  }

  lemma MaterialiseKeeps(db: Db, cfg: T.Config, id: nat, turn: Turn, horizon: Day)
    requires LedgerOk(db) && SchedulesOk(db, horizon) && id < |db.schedules|
    requires InRange(db.schedules[id], db.schedules[id].nextRun, horizon)
    ensures var (db', ok) := Materialise(db, cfg, id, db.schedules[id], turn);
            && SchedulesOk(db', horizon) && db'.schedules == db.schedules
            && (ok ==> RunExists(db', id))
  {
    hide DraftInvoice, IssueInvoice, SchedulesAt, InRange, RunKey, LedgerOk;
    var (drafted, d) := DraftInvoice(db, RunInput(id, db.schedules[id]), turn.draft);
    ScheduledDraftKeeps(db, id, turn.draft, horizon);
    DraftKeeps(db, RunInput(id, db.schedules[id]), turn.draft);
    if d.Success? {
      IssueKeepsSchedules(drafted, cfg, d.value.invoice, turn.issue);
    }
  }

  lemma SaveKeeps(db: Db, id: nat, horizon: Day)
    requires SchedulesOk(db, horizon) && id < |db.schedules| && horizon.year <= 9998
    requires RunExists(db, id) && InRange(db.schedules[id], db.schedules[id].nextRun, horizon)
    ensures SchedulesOk(db.(schedules := db.schedules[id := NextCycle(db.schedules[id])]), horizon)
  {
    hide HasRun, RunKey, OneOf, NextCycle;
    var s, owners := db.schedules[id], Owners(db);
    assert OnSomeRun(owners, id, s, horizon);
    var k: nat :| OnRun(owners, id, s, k, horizon);
    var i :| 0 <= i < |owners| && owners[i] == Owned(Some(RunKey(id, s.nextRun)), Some(id));
    assert IsRun(owners[i], id, s, k);
    assert HasRun(owners, id, s, k) by {
      HasRunAt(owners, id, s, k, i);
    }
    NextCycleKeeps(owners, id, s, k, horizon);
    SaveRow(owners, db.schedules, horizon, id, NextCycle(s));
    assert Owners(db.(schedules := db.schedules[id := NextCycle(s)])) == owners;
  }

  lemma HasRunAt(owners: seq<Owned>, id: nat, s: Schedule, k: nat, i: nat)
    requires i < |owners| && IsRun(owners[i], id, s, k)
    ensures HasRun(owners, id, s, k)
  {
    hide IsRun;
  }

  /** One schedule of a tick, wherever it stops. */
  lemma RunOneKeeps(db: Db, cfg: T.Config, id: nat, turn: Turn, today: Day, horizon: Day)
    requires LedgerOk(db) && SchedulesOk(db, horizon) && horizon.year <= 9998
    requires id < |db.schedules| && IsDue(db.schedules[id], today) && DateAtMost(today, horizon)
    ensures var db' := RunOne(db, cfg, id, turn).0;
            && SchedulesOk(db', horizon) && |db'.schedules| == |db.schedules|
            && forall i :: 0 <= i < |db.schedules| && i != id ==> db'.schedules[i] == db.schedules[i]
  {
    hide SchedulesAt, Materialise, LedgerOk, NextCycle, InRange, RunExists, IsDue;
    DueInRangeOf(Owners(db), db.schedules, id, today, horizon);
    MaterialiseKeeps(db, cfg, id, turn, horizon);
    var (db', ok) := Materialise(db, cfg, id, db.schedules[id], turn);
    if ok && turn.saves {
      SaveKeeps(db', id, horizon);
    }
  }

  lemma RunOneInv(db: Db, cfg: T.Config, id: nat, turn: Turn)
    requires Inv(db) && id < |db.schedules|
    ensures Inv(RunOne(db, cfg, id, turn).0)
  {
    hide Inv, RunOne;
    var steps := TurnIsSteps(db, cfg, id, turn);
    DoAllKeeps(db, steps);
  }

  predicate AllDue(schedules: seq<Schedule>, ids: seq<nat>, today: Day) {
    forall i :: 0 <= i < |ids| ==> ids[i] < |schedules| && IsDue(schedules[ids[i]], today)
  }

  lemma {:induction false} RunAllKeeps(db: Db, cfg: T.Config, ids: seq<nat>, turns: nat -> Turn, ran: nat,
                                       today: Day, horizon: Day)
    requires Inv(db) && SchedulesOk(db, horizon) && horizon.year <= 9998 && DateAtMost(today, horizon)
    requires Distinct(ids) && AllDue(db.schedules, ids, today)
    ensures SchedulesOk(RunAll(db, cfg, ids, turns, ran).0, horizon)
    decreases |ids|
  {
    hide SchedulesOk, KeysUnique, SendsOk, BusOk, LedgerOk, RunOne, IsDue;
    if ids != [] {
      var (db', ok) := RunOne(db, cfg, ids[0], turns(ran));
      RunOneKeeps(db, cfg, ids[0], turns(ran), today, horizon);
      RunOneInv(db, cfg, ids[0], turns(ran));
      if ok {
        RunAllKeeps(db', cfg, ids[1..], turns, ran + 1, today, horizon);
      }
    }
  }

  lemma PlainRunsOf(owners: seq<Owned>, schedules: seq<Schedule>, horizon: Day)
    requires SchedulesAt(owners, schedules, horizon)
    ensures PlainRuns(schedules)
  {
    hide HasRun, RunKey, OneOf, InRange, WithinEnd;
    forall id: nat | id < |schedules|
      ensures PlainYear(schedules[id].nextRun)
    {
      assert OnSomeRun(owners, id, schedules[id], horizon);
    }
  }

  lemma TickKeeps(db: Db, cfg: T.Config, today: Day, turns: nat -> Turn, horizon: Day)
    requires Inv(db) && SchedulesOk(db, horizon) && horizon.year <= 9998 && DateAtMost(today, horizon)
    requires PlainYear(today)
    ensures SchedulesOk(Tick(db, cfg, today, turns).0, horizon)
  {
    hide SchedulesAt, RunAll, Inv, Due, IsDue;
    PlainRunsOf(Owners(db), db.schedules, horizon);
    DueIsExact(db.schedules, today);
    RunAllKeeps(db, cfg, Due(db.schedules, today), turns, 0, today, horizon);
  }

  // ---------------------------------------------------------------------------
  // Runs of calls
  // ---------------------------------------------------------------------------

  lemma CreateKeeps(db: Db, input: ScheduleInput, env: Env, horizon: Day)
    requires SchedulesOk(db, horizon) && PlainYear(input.start)
    ensures SchedulesOk(CreateSchedule(db, input, env).0, horizon)
  {
    hide SchedulesAt;
    var (db', r) := CreateSchedule(db, input, env);
    if r.Success? {
      NewRow(Owners(db), db.schedules, horizon, db'.schedules[|db.schedules|]);
      assert Owners(db') == Owners(db);
    }
  }

  lemma ChangeKeeps(db: Db, id: nat, to: ScheduleState, env: Env, horizon: Day)
    requires SchedulesOk(db, horizon)
    ensures SchedulesOk(ChangeState(db, id, to, env).0, horizon)
  {
    hide HasRun, RunKey, InRange;
    var (db', r) := ChangeState(db, id, to, env);
    if r.Success? {
      var s, owners := db.schedules[id], Owners(db);
      assert OnSomeRun(owners, id, s, horizon);
      var k: nat :| OnRun(owners, id, s, k, horizon);
      SameRuns(owners, id, s, s.(state := to), horizon);
      StateKeeps(owners, id, s, k, to, horizon);
      SaveRow(owners, db.schedules, horizon, id, s.(state := to));
      assert Owners(db') == owners;
    }
  }

  lemma StateKeeps(owners: seq<Owned>, id: nat, s: Schedule, k: nat, to: ScheduleState, horizon: Day)
    requires OnRun(owners, id, s, k, horizon) && (s.state == Cancelled ==> to == Cancelled)
    ensures OnRun(owners, id, s.(state := to), k, horizon)
  {
    hide HasRun, RunKey, InRange;
    var s' := s.(state := to);
    SameRuns(owners, id, s, s', horizon);
    forall i | 0 <= i < |owners| && owners[i].schedule == Some(id)
      ensures OneOf(owners[i], id, s', k)
    {
      assert OneOf(owners[i], id, s, k);
      var j: nat :| j <= k && IsRun(owners[i], id, s, j);
      assert IsRun(owners[i], id, s', j);
    }
  }

  lemma PartIsPolite(s: Step, c: Call, horizon: Day)
    requires PartOf(s, c) && Polite(c, horizon) && (c.Command? || c.Deliver?)
    ensures PoliteStep(s)
  {
  }

  lemma PoliteCallKeeps(db: Db, c: Call, horizon: Day)
    requires Inv(db) && SchedulesOk(db, horizon) && horizon.year <= 9998 && Polite(c, horizon)
    ensures SchedulesOk(Apply(db, c), horizon)
  {
    hide Inv, SchedulesOk, Tick, PartOf, PoliteStep, Do, Receive;
    match c {
      case NewSchedule(input, env) => CreateKeeps(db, input, env, horizon);
      case SetSchedule(id, to, env) => ChangeKeeps(db, id, to, env, horizon);
      case TickCall(cfg, now, turns) => TickKeeps(db, cfg, now.date, turns, horizon);
      case _ =>
        var steps := CallIsSteps(db, c);
        forall i | 0 <= i < |steps|
          ensures PoliteStep(steps[i])
        {
          PartIsPolite(steps[i], c, horizon);
        }
        PoliteStepsKeep(db, steps, horizon);
    }
  }

  lemma {:induction false} PoliteRunsKeep(db: Db, calls: seq<Call>, horizon: Day)
    requires Inv(db) && SchedulesOk(db, horizon) && horizon.year <= 9998
    requires forall i :: 0 <= i < |calls| ==> Polite(calls[i], horizon)
    ensures SchedulesOk(RunCalls(db, calls), horizon) && Inv(RunCalls(db, calls))
    decreases |calls|
  {
    hide Inv, SchedulesOk, Apply, Polite;
    if calls != [] {
      PoliteCallKeeps(db, calls[0], horizon);
      var steps := CallIsSteps(db, calls[0]);
      DoAllKeeps(db, steps);
      PoliteRunsKeep(Apply(db, calls[0]), calls[1..], horizon);
    }
  }

  /**
   The invoices of schedule `id` are exactly its first `n` runs, one invoice each, none after the
   horizon and none after the schedule's end.
   */
  ghost predicate InvoicedExactly(db: Db, id: nat, n: nat, horizon: Day)
    requires id < |db.schedules|
  {
    var s, owners := db.schedules[id], Owners(db);
    && (forall i :: 0 <= i < |owners| && owners[i].schedule == Some(id) ==> AmongRuns(owners[i], id, s, n))
    && (forall j: nat :: j < n ==> HasRun(owners, id, s, j))
    && (forall j: nat :: j < n ==> InRange(s, RunDate(s, j), horizon))
    && (forall i: nat, i': nat, j: nat ::
          (i < |owners| && i' < |owners| && j < n && IsRun(owners[i], id, s, j) && IsRun(owners[i'], id, s, j))
          ==> i == i')
    && (forall i: nat, j: nat :: i < n && j < n && RunKey(id, RunDate(s, i)) == RunKey(id, RunDate(s, j)) ==> i == j)
  }

  ghost predicate AmongRuns(o: Owned, id: nat, s: Schedule, n: nat) {
    exists j: nat :: j < n && IsRun(o, id, s, j)
  }

  lemma OneInvoicePerRun(db: Db, id: nat, s: Schedule, j: nat, i: nat, i': nat)
    requires KeysUnique(db) && i < |db.invoices| && i' < |db.invoices|
    requires IsRun(Owners(db)[i], id, s, j) && IsRun(Owners(db)[i'], id, s, j)
    ensures i == i'
  {
    hide RunKey;
  }

  lemma EarlierRunInRange(s: Schedule, i: nat, j: nat, horizon: Day)
    requires i <= j && InRange(s, RunDate(s, j), horizon)
    ensures InRange(s, RunDate(s, i), horizon)
  {
    if i < j {
      RunsIncrease(s.cadence, s.start, i, j);
    }
  }

  /**
   Over any run of calls, with ticks at any dates up to the horizon and any tick stopping anywhere,
   the invoices of every schedule carry exactly an initial segment of its run dates.
   */
  lemma ScheduleIsInvoicedInOrder(calls: seq<Call>, horizon: Day, id: nat) returns (n: nat)
    requires forall i :: 0 <= i < |calls| ==> Polite(calls[i], horizon)
    requires horizon.year <= 9998 && id < |RunCalls(EMPTY, calls).schedules|
    ensures InvoicedExactly(RunCalls(EMPTY, calls), id, n, horizon)
  {
    hide Polite, RunCalls, HasRun, LedgerOk, SendsOk, BusOk, KeysUnique, InRange, IsRun, RunKey, InvoicedExactly;
    EmptyInv();
    assert Owners(EMPTY) == [];
    PoliteRunsKeep(EMPTY, calls, horizon);
    var db := RunCalls(EMPTY, calls);
    var s, owners := db.schedules[id], Owners(db);
    assert OnSomeRun(owners, id, s, horizon);
    var k: nat :| OnRun(owners, id, s, k, horizon);
    n := if HasRun(owners, id, s, k) then k + 1 else k;
    OnRunCounts(db, id, k, n, horizon);
  }

  lemma OnRunCounts(db: Db, id: nat, k: nat, n: nat, horizon: Day)
    requires KeysUnique(db) && id < |db.schedules| && OnRun(Owners(db), id, db.schedules[id], k, horizon)
    requires n == if HasRun(Owners(db), id, db.schedules[id], k) then k + 1 else k
    ensures InvoicedExactly(db, id, n, horizon)
  {
    hide RunKey, InRange, HasRun, IsRun, KeysUnique;
    var s, owners := db.schedules[id], Owners(db);
    forall i | 0 <= i < |owners| && owners[i].schedule == Some(id)
      ensures AmongRuns(owners[i], id, s, n)
    {
      assert OneOf(owners[i], id, s, k);
      var j: nat :| j <= k && IsRun(owners[i], id, s, j);
      if j == k {
        HasRunAt(owners, id, s, k, i);
      }
    }
    forall j: nat | j < n
      ensures InRange(s, RunDate(s, j), horizon)
    {
      EarlierRunInRange(s, j, n - 1, horizon);
    }
    forall i: nat, i': nat, j: nat | i < |owners| && i' < |owners| && j < n
                                     && IsRun(owners[i], id, s, j) && IsRun(owners[i'], id, s, j)
      ensures i == i'
    {
      OneInvoicePerRun(db, id, s, j, i, i');
    }
    forall i: nat, j: nat | i < n && j < n && RunKey(id, RunDate(s, i)) == RunKey(id, RunDate(s, j))
      ensures i == j
    {
      RunKeysDistinct(id, s, i, j, k);
    }
  }
}
