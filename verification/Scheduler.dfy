/**
 Recurring schedules and the ticker (crates/commands/src/schedule.rs, crates/store/src/repo/schedule.rs).

 A tick commits a draft, then perhaps an issue, then the schedule row, each in its own transaction,
 and stops at the first failure.
 */
module Scheduler {
  import opened Wrappers
  import opened Calendar
  import opened Text
  import opened Timestamps
  import opened Sorting
  import opened Cadences
  import opened Money
  import opened Tables
  import opened Ledger
  import Numbering
  import T = Tax

  // ---------------------------------------------------------------------------
  // Creating, pausing and cancelling
  // ---------------------------------------------------------------------------

  datatype ScheduleInput = ScheduleInput(customer: nat, lines: seq<DraftLine>, currency: Currency,
                                         cadence: Recurrence, start: Day, end: Option<Day>, autoIssue: bool)

  predicate ValidSchedule(input: ScheduleInput) {
    && input.lines != []
    && (forall l :: l in input.lines ==> l.quantity > 0.0 && l.unitPrice >= 0.0)
    && (input.end.Some? ==> !DateBefore(input.end.value, input.start))
  }

  function CreateSchedule(db: Db, input: ScheduleInput, env: Env): (Db, Result<nat, Error>) {
    if !ValidSchedule(input) then (db, Failure(Validation))
    else if input.customer >= |db.customers| || !env.commits then (db, Failure(Repo))
    else
      var s := Schedule(input.customer, input.lines, input.currency, input.cadence, input.start, input.end,
                        input.autoIssue, input.start, None, Active);
      (db.(schedules := db.schedules + [s]), Success(|db.schedules|))
  }

  /** `transition_schedule`: cancelled is terminal. */
  function ChangeState(db: Db, id: nat, to: ScheduleState, env: Env): (Db, Result<nat, Error>) {
    if id >= |db.schedules| then (db, Failure(NotFound))
    else if db.schedules[id].state == Cancelled && to != Cancelled then (db, Failure(Validation))
    else if !env.commits then (db, Failure(Repo))
    else (db.(schedules := db.schedules[id := db.schedules[id].(state := to)]), Success(id))
  }

  // ---------------------------------------------------------------------------
  // Which schedules are due
  // ---------------------------------------------------------------------------

  /** `state = 'active' AND next_run <= ?`, on the text of the dates. */
  predicate DueText(s: Schedule, today: Day) {
    s.state == Active && LexAtMost(DateText(s.nextRun), DateText(today))
  }

  function DueFlags(schedules: seq<Schedule>, today: Day): (keep: seq<bool>)
    ensures |keep| == |schedules|
    ensures forall i :: 0 <= i < |keep| ==> keep[i] == DueText(schedules[i], today)
  {
    seq(|schedules|, i requires 0 <= i < |schedules| => DueText(schedules[i], today))
  }

  function RunKeys(schedules: seq<Schedule>): (keys: seq<string>)
    ensures |keys| == |schedules|
    ensures forall i :: 0 <= i < |keys| ==> keys[i] == DateText(schedules[i].nextRun)
  {
    seq(|schedules|, i requires 0 <= i < |schedules| => DateText(schedules[i].nextRun))
  }

  /** `ScheduleRepo::due`: the due schedules, earliest next run first. */
  function Due(schedules: seq<Schedule>, today: Day): seq<nat> {
    SortIds(RunKeys(schedules), Selected(DueFlags(schedules, today), |schedules|))
  }

  predicate PlainYear(d: Date) {
    0 <= d.year <= 9999
  }

  /** On years 0 to 9999 the query finds exactly the active schedules whose next run is not after today. */
  predicate IsDue(s: Schedule, today: Day) {
    s.state == Active && DateAtMost(s.nextRun, today)
  }

  lemma DueInRange(schedules: seq<Schedule>, today: Day)
    ensures var due := Due(schedules, today);
            && (forall i :: 0 <= i < |due| ==> due[i] < |schedules| && DueText(schedules[due[i]], today))
            && (forall id: nat :: id < |schedules| && DueText(schedules[id], today) ==> id in due)
            && Distinct(due)
            && Sorted(RunKeys(schedules), due)
  {
    hide SortIds, DueText, Sorted, KeyOf;
    var keys, all, due := RunKeys(schedules), Selected(DueFlags(schedules, today), |schedules|), Due(schedules, today);
    SortIdsDistinct(keys, all);
    SortIdsSorted(keys, all);
    forall i | 0 <= i < |due|
      ensures due[i] < |schedules| && DueText(schedules[due[i]], today)
    {
      assert due[i] in all;
    }
  }

  predicate PlainRuns(schedules: seq<Schedule>) {
    forall i :: 0 <= i < |schedules| ==> PlainYear(schedules[i].nextRun)
  }

  lemma DueTextIsDue(s: Schedule, today: Day)
    requires PlainYear(today) && PlainYear(s.nextRun)
    ensures DueText(s, today) <==> IsDue(s, today)
  {
    hide LexLess, DateText;
    DateTextOrder(s.nextRun, today);
  }

  lemma DueIsExact(schedules: seq<Schedule>, today: Day)
    requires PlainYear(today) && PlainRuns(schedules)
    ensures var due := Due(schedules, today);
            && (forall i :: 0 <= i < |due| ==> due[i] < |schedules| && IsDue(schedules[due[i]], today))
            && (forall id: nat :: id < |schedules| && IsDue(schedules[id], today) ==> id in due)
            && Distinct(due)
  {
    hide Due, DueText, Sorted;
    DueInRange(schedules, today);
    forall id: nat | id < |schedules|
      ensures DueText(schedules[id], today) <==> IsDue(schedules[id], today)
    {
      DueTextIsDue(schedules[id], today);
    }
  }

  /** A tick takes the schedules in the order of their run dates. */
  lemma DueInDateOrder(schedules: seq<Schedule>, today: Day, i: nat, j: nat)
    requires PlainYear(today) && PlainRuns(schedules) && i < j < |Due(schedules, today)|
    ensures var a, b := Due(schedules, today)[i], Due(schedules, today)[j];
            a < |schedules| && b < |schedules| && DateAtMost(schedules[a].nextRun, schedules[b].nextRun)
  {
    hide Due, LexLess, DateText;
    DueInRange(schedules, today);
    var a, b := Due(schedules, today)[i], Due(schedules, today)[j];
    assert LexAtMost(KeyOf(RunKeys(schedules), a), KeyOf(RunKeys(schedules), b));
    DateTextOrder(schedules[a].nextRun, schedules[b].nextRun);
  }

  // ---------------------------------------------------------------------------
  // One schedule of a tick
  // ---------------------------------------------------------------------------

  /** `schedule:{id}:run:{date}` */
  function RunKey(id: nat, run: Day): string {
    ("schedule:" + (Dec(id) + ":run:")) + DateText(run)
  }

  function RunInput(id: nat, s: Schedule): DraftInput {
    DraftInput(s.customer, T.QuebecCa, s.currency, s.lines, Some(RunKey(id, s.nextRun)), Some(id))
  }

  function NextCycle(s: Schedule): Schedule {
    var next := Advance(s.cadence, s.nextRun);
    s.(lastRun := Some(s.nextRun), nextRun := next,
       state := if s.end.Some? && DateBefore(s.end.value, next) then Cancelled else s.state)
  }

  /** The world during one schedule's turn: its draft, its issue, and whether its row is saved. */
  datatype Turn = Turn(draft: Env, issue: Env, saves: bool)

  /** The draft and the issue of one turn, and whether both went through. */
  function Materialise(db: Db, cfg: T.Config, id: nat, s: Schedule, turn: Turn): (Db, bool) {
    var (drafted, d) := DraftInvoice(db, RunInput(id, s), turn.draft);
    if d.Failure? then (drafted, false)
    else if !s.autoIssue then (drafted, true)
    else
      var (issued, i) := IssueInvoice(drafted, cfg, d.value.invoice, turn.issue);
      (issued, i.Success?)
  }

  function RunOne(db: Db, cfg: T.Config, id: nat, turn: Turn): (Db, bool)
    requires id < |db.schedules|
  {
    var s := db.schedules[id];
    var (db', ok) := Materialise(db, cfg, id, s, turn);
    MaterialiseFrame(db, cfg, id, s, turn);
    if !ok || !turn.saves then (db', false)
    else (db'.(schedules := db'.schedules[id := NextCycle(s)]), true)
  }

  lemma MaterialiseFrame(db: Db, cfg: T.Config, id: nat, s: Schedule, turn: Turn)
    ensures InvoicesOnly(db, Materialise(db, cfg, id, s, turn).0)
  {
    hide DraftInvoice, IssueInvoice;
    var (drafted, d) := DraftInvoice(db, RunInput(id, s), turn.draft);
    DraftFrame(db, RunInput(id, s), turn.draft);
    if d.Success? {
      IssueFrame(drafted, cfg, d.value.invoice, turn.issue);
    }
  }

  /** Only the invoice tables move. */
  predicate InvoicesOnly(a: Db, b: Db) {
    b == a.(invoices := b.invoices, lines := b.lines, history := b.history)
  }

  lemma DraftFrame(db: Db, input: DraftInput, env: Env)
    ensures InvoicesOnly(db, DraftInvoice(db, input, env).0)
  {
  }

  lemma IssueFrame(db: Db, cfg: T.Config, id: nat, env: Env)
    ensures InvoicesOnly(db, IssueInvoice(db, cfg, id, env).0)
  {
    hide TaxedLines, IssuedInvoice, Numbering.Taken, Numbering.NextNumber;
  }

  /** The tick loop over the due ids; `ran` is how many went through. */
  function RunAll(db: Db, cfg: T.Config, ids: seq<nat>, turns: nat -> Turn, ran: nat): (r: (Db, nat, bool))
    requires forall i :: 0 <= i < |ids| ==> ids[i] < |db.schedules|
    ensures |r.0.schedules| == |db.schedules|
    decreases |ids|
  {
    if ids == [] then (db, ran, true)
    else
      var (db', ok) := RunOne(db, cfg, ids[0], turns(ran));
      MaterialiseFrame(db, cfg, ids[0], db.schedules[ids[0]], turns(ran));
      if ok then RunAll(db', cfg, ids[1..], turns, ran + 1) else (db', ran, false)
  }

  /** `schedules_tick`: the tables after it, how many schedules ran, and whether it returned without error. */
  function Tick(db: Db, cfg: T.Config, today: Day, turns: nat -> Turn): (Db, nat, bool) {
    DueInRange(db.schedules, today);
    RunAll(db, cfg, Due(db.schedules, today), turns, 0)
  }
}
