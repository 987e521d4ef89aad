/**
 The life of a schedule over whole runs (crates/commands/src/schedule.rs): what it keeps, when it ends,
 what its invoices say, and exactly which of its run dates have one once the ticks have caught up.
 */
module ScheduleLife {
  import opened Wrappers
  import opened Calendar
  import opened Cadences
  import opened Lifecycle
  import opened Tables
  import opened Ledger
  import opened Inbox
  import opened Scheduler
  import opened Runs
  import opened Safety
  import opened NumberRuns
  import opened ScheduleRuns
  import opened ScheduleProgress
  import opened StuckSchedules
  import opened Answers
  import opened Text
  import opened Timestamps
  import Sorting
  import T = Tax

  // ---------------------------------------------------------------------------
  // How a call moves one schedule's row
  // ---------------------------------------------------------------------------

  /** A row moves by one tick only while it is active, and then by one cycle. */
  predicate RowStays(a: Schedule, b: Schedule) {
    b == a || (a.state == Active && b == NextCycle(a))
  }

  /** Only the turns of `id` itself move its row. */
  lemma TurnMovesOwnRow(db: Db, cfg: T.Config, turned: nat, turn: Turn, id: nat)
    requires turned < |db.schedules| && id < |db.schedules|
    ensures var db' := RunOne(db, cfg, turned, turn).0;
            && |db'.schedules| == |db.schedules|
            && (turned != id ==> db'.schedules[id] == db.schedules[id])
            && (turned == id ==> db'.schedules[id] == db.schedules[id] || db'.schedules[id] == NextCycle(db.schedules[id]))
  {
    hide RunOne, NextCycle;
    RunOneSchedules(db, cfg, turned, turn);
  }

  lemma {:induction false} TurnsMoveOwnRow(db: Db, cfg: T.Config, ids: seq<nat>, turns: nat -> Turn, ran: nat, id: nat)
    requires InRangeOf(ids, db.schedules) && id < |db.schedules| && Sorting.Distinct(ids)
    requires id in ids ==> db.schedules[id].state == Active
    ensures RowStays(db.schedules[id], RunAll(db, cfg, ids, turns, ran).0.schedules[id])
    ensures id !in ids ==> RunAll(db, cfg, ids, turns, ran).0.schedules[id] == db.schedules[id]
    decreases |ids|
  {
    hide RunOne, NextCycle;
    if ids != [] {
      var (db', ok) := RunOne(db, cfg, ids[0], turns(ran));
      TurnMovesOwnRow(db, cfg, ids[0], turns(ran), id);
      assert forall i :: 0 <= i < |ids| - 1 ==> ids[1..][i] == ids[i + 1];
      if ok {
        TurnsMoveOwnRow(db', cfg, ids[1..], turns, ran + 1, id);
      }
    }
  }

  lemma TickMovesRow(db: Db, cfg: T.Config, today: Day, turns: nat -> Turn, id: nat)
    requires id < |db.schedules|
    ensures var db' := Tick(db, cfg, today, turns).0;
            && |db'.schedules| == |db.schedules| && RowStays(db.schedules[id], db'.schedules[id])
            && (db.schedules[id].state != Active ==> db'.schedules[id] == db.schedules[id])
  {
    hide RunAll, Due, NextCycle, Sorting.Sorted;
    DueInRange(db.schedules, today);
    TurnsMoveOwnRow(db, cfg, Due(db.schedules, today), turns, 0, id);
  }

  /** A call that does not set this schedule's state. */
  predicate Unset(c: Call, id: nat) {
    !(c.SetSchedule? && c.id == id)
  }

  lemma CallMovesRow(db: Db, c: Call, id: nat)
    requires id < |db.schedules| && LeavesSchedules(c)
    ensures id < |Apply(db, c).schedules|
    ensures Unset(c, id) ==> RowStays(db.schedules[id], Apply(db, c).schedules[id])
    ensures Unset(c, id) && db.schedules[id].state != Active ==> Apply(db, c).schedules[id] == db.schedules[id]
    ensures c.SetSchedule? ==> SamePlace(db.schedules[id], Apply(db, c).schedules[id])
  {
    hide Tick, DoAll, NextCycle;
    match c {
      case TickCall(cfg, now, turns) => TickMovesRow(db, cfg, now.date, turns, id);
      case NewSchedule(_, _) =>
      case SetSchedule(_, _, _) =>
      case _ =>
        var steps := CallIsSteps(db, c);
        forall i | 0 <= i < |steps|
          ensures !steps[i].SaveSchedules?
        {
          assert PartOf(steps[i], c);
        }
        SchedulesOfSteps(db, steps);
    }
  }

  // ---------------------------------------------------------------------------
  // What a schedule keeps
  // ---------------------------------------------------------------------------

  /** Everything about a schedule but where it stands. */
  predicate SameTerms(a: Schedule, b: Schedule) {
    b == a.(nextRun := b.nextRun, lastRun := b.lastRun, state := b.state)
  }

  lemma {:induction false} TermsAreKept(db: Db, calls: seq<Call>, id: nat)
    requires id < |db.schedules| && forall i :: 0 <= i < |calls| ==> LeavesSchedules(calls[i])
    ensures id < |RunCalls(db, calls).schedules| && SameTerms(db.schedules[id], RunCalls(db, calls).schedules[id])
    decreases |calls|
  {
    hide Apply, LeavesSchedules;
    if calls != [] {
      CallMovesRow(db, calls[0], id);
      TermsAreKept(Apply(db, calls[0]), calls[1..], id);
    }
  }

  /**
   A schedule is created exactly on valid terms for a known customer, and over every later run it keeps
   the terms it was created with.
   */
  lemma ScheduleKeepsItsTerms(db: Db, input: ScheduleInput, env: Env, calls: seq<Call>)
    requires forall i :: 0 <= i < |calls| ==> LeavesSchedules(calls[i])
    ensures var (created, r) := CreateSchedule(db, input, env);
            && (r.Success? <==> ValidSchedule(input) && input.customer < |db.customers| && env.commits)
            && (r.Failure? ==> created == db && r.error == (if ValidSchedule(input) then Repo else Validation))
            && (r.Success? ==>
                  var id, later := r.value, RunCalls(created, calls);
                  && id == |db.schedules| && id < |later.schedules|
                  && var s := later.schedules[id];
                     && s.customer == input.customer && s.lines == input.lines && s.currency == input.currency
                     && s.cadence == input.cadence && s.start == input.start && s.end == input.end
                     && s.autoIssue == input.autoIssue)
  {
    hide RunCalls, LeavesSchedules;
    var (created, r) := CreateSchedule(db, input, env);
    if r.Success? {
      TermsAreKept(created, calls, r.value);
    }
  }

  /** Terms are refused exactly for want of lines, for a bad quantity or price, or for an end before the start. */
  lemma TermsAreRefusedExactly(db: Db, input: ScheduleInput, env: Env)
    ensures CreateSchedule(db, input, env).1 == Failure(Validation) <==>
              || input.lines == []
              || (exists i :: 0 <= i < |input.lines| && (input.lines[i].quantity <= 0.0 || input.lines[i].unitPrice < 0.0))
              || (input.end.Some? && DateBefore(input.end.value, input.start))
  {
    if ValidSchedule(input) {
      assert forall i :: 0 <= i < |input.lines| ==> input.lines[i] in input.lines;
    }
  }

  /** Pausing and cancelling: refused only on a cancelled schedule, and nothing but the state changes. */
  lemma ChangeAnswers(db: Db, id: nat, to: ScheduleState, env: Env)
    ensures var (db', r) := ChangeState(db, id, to, env);
            && (r.Success? <==> id < |db.schedules| && (db.schedules[id].state == Cancelled ==> to == Cancelled) && env.commits)
            && (r.Failure? ==> db' == db)
            && (r.Failure? ==> r.error == (if id >= |db.schedules| then NotFound
                                           else if db.schedules[id].state == Cancelled && to != Cancelled then Validation
                                           else Repo))
            && (r.Success? ==>
                  && r.value == id && |db'.schedules| == |db.schedules|
                  && db' == db.(schedules := db'.schedules)
                  && db'.schedules[id] == db.schedules[id].(state := to)
                  && forall i :: 0 <= i < |db.schedules| && i != id ==> db'.schedules[i] == db.schedules[i])
  {
  }

  // ---------------------------------------------------------------------------
  // When a schedule ends
  // ---------------------------------------------------------------------------

  /** It is active exactly while its next run is within its end. */
  predicate EndsOnTime(s: Schedule) {
    s.state == Active <==> WithinEnd(s, s.nextRun)
  }

  lemma MoveKeepsEnd(a: Schedule, b: Schedule)
    requires RowStays(a, b) && EndsOnTime(a)
    ensures EndsOnTime(b)
  {
    hide Advance;
  }

  lemma CallKeepsEnd(db: Db, c: Call, id: nat)
    requires LeavesSchedules(c) && Unset(c, id) && (id < |db.schedules| ==> EndsOnTime(db.schedules[id]))
    ensures id < |Apply(db, c).schedules| ==> EndsOnTime(Apply(db, c).schedules[id])
  {
    hide Apply, EndsOnTime, RowStays;
    if id < |db.schedules| {
      CallMovesRow(db, c, id);
      MoveKeepsEnd(db.schedules[id], Apply(db, c).schedules[id]);
    } else if id < |Apply(db, c).schedules| {
      NewRowEndsOnTime(db, c, id);
    }
  }

  /** Only creating a schedule adds a row. */
  lemma OthersAddNoRow(db: Db, c: Call)
    requires LeavesSchedules(c) && !c.NewSchedule?
    ensures |Apply(db, c).schedules| == |db.schedules|
  {
    hide Tick, DoAll;
    if c.TickCall? {
      TickKeepsCount(db, c.cfg, c.now.date, c.turns);
    } else if !c.SetSchedule? {
      var steps := CallIsSteps(db, c);
      forall i | 0 <= i < |steps|
        ensures !steps[i].SaveSchedules?
      {
        assert PartOf(steps[i], c);
      }
      SchedulesOfSteps(db, steps);
    }
  }

  lemma TickKeepsCount(db: Db, cfg: T.Config, today: Day, turns: nat -> Turn)
    ensures |Tick(db, cfg, today, turns).0.schedules| == |db.schedules|
  {
    hide RunAll, Due, Sorting.Sorted;
    DueInRange(db.schedules, today);
  }

  lemma NewRowEndsOnTime(db: Db, c: Call, id: nat)
    requires LeavesSchedules(c) && |db.schedules| <= id < |Apply(db, c).schedules|
    ensures EndsOnTime(Apply(db, c).schedules[id])
  {
    hide Apply;
    if c.NewSchedule? {
      CreatedEndsOnTime(db, c.input, c.env);
      CreateIsApply(db, c);
    } else {
      OthersAddNoRow(db, c);
    }
  }

  lemma CreateIsApply(db: Db, c: Call)
    requires c.NewSchedule?
    ensures Apply(db, c) == CreateSchedule(db, c.input, c.env).0
  {
    hide CreateSchedule;
  }

  lemma CreatedEndsOnTime(db: Db, input: ScheduleInput, env: Env)
    ensures var db' := CreateSchedule(db, input, env).0;
            |db'.schedules| <= |db.schedules| + 1
            && (|db'.schedules| > |db.schedules| ==> EndsOnTime(db'.schedules[|db.schedules|]))
  {
  }

  lemma {:induction false} RunKeepsEnd(db: Db, calls: seq<Call>, id: nat)
    requires forall i :: 0 <= i < |calls| ==> LeavesSchedules(calls[i]) && Unset(calls[i], id)
    requires id < |db.schedules| ==> EndsOnTime(db.schedules[id])
    ensures id < |RunCalls(db, calls).schedules| ==> EndsOnTime(RunCalls(db, calls).schedules[id])
    decreases |calls|
  {
    hide Apply, EndsOnTime, LeavesSchedules, Unset;
    if calls != [] {
      CallKeepsEnd(db, calls[0], id);
      RunKeepsEnd(Apply(db, calls[0]), calls[1..], id);
    }
  }

  /** Over any run in which nobody sets its state, a schedule is active exactly while its next run is within its end. */
  lemma ActiveUntilItsEnd(calls: seq<Call>, id: nat)
    requires forall i :: 0 <= i < |calls| ==> LeavesSchedules(calls[i]) && Unset(calls[i], id)
    requires id < |RunCalls(EMPTY, calls).schedules|
    ensures var s := RunCalls(EMPTY, calls).schedules[id];
            s.state == Active <==> WithinEnd(s, s.nextRun)
  {
    hide RunCalls, LeavesSchedules, Unset;
    RunKeepsEnd(EMPTY, calls, id);
  }

  // ---------------------------------------------------------------------------
  // Once caught up
  // ---------------------------------------------------------------------------

  /** In a store with nothing due for this schedule, exactly the runs come and within the end have an invoice. */
  lemma NothingDueMeansAllInvoiced(db: Db, today: Day, id: nat, j: nat)
    requires SchedulesOk(db, today) && id < |db.schedules|
    requires EndsOnTime(db.schedules[id]) && !IsDue(db.schedules[id], today)
    ensures var s := db.schedules[id];
            HasRun(Owners(db), id, s, j) <==> DateAtMost(RunDate(s, j), today) && WithinEnd(s, RunDate(s, j))
  {
    hide RunKey, HasRun, IsRun;
    var s, owners := db.schedules[id], Owners(db);
    assert OnSomeRun(owners, id, s, today);
    var k: nat :| OnRun(owners, id, s, k, today);
    if HasRun(owners, id, s, j) {
      RunAtMost(owners, id, s, k, today, j);
      if j < k {
        EarlierRunInRange(s, j, k - 1, today);
      }
    } else if j >= k && InRange(s, RunDate(s, j), today) {
      EarlierRunInRange(s, k, j, today);
    }
  }

  /** No invoice stands for a run past the current one. */
  lemma RunAtMost(owners: seq<Owned>, id: nat, s: Schedule, k: nat, today: Day, j: nat)
    requires OnRun(owners, id, s, k, today) && HasRun(owners, id, s, j)
    ensures j <= k
  {
    hide RunKey, InRange, WithinEnd;
    var i :| 0 <= i < |owners| && IsRun(owners[i], id, s, j);
    assert OneOf(owners[i], id, s, k);
    var m: nat :| m <= k && IsRun(owners[i], id, s, m);
    RunKeyInjective(id, RunDate(s, m), id, RunDate(s, j));
    if j > k {
      RunYears(s, m, k);
      RunYears(s, m, j);
      SameTextSameDate(RunDate(s, m), RunDate(s, j));
      RunsDistinct(s.cadence, s.start, m, j);
    }
  }

  /** A date of four digits in the year prints like no later one. */
  lemma SameTextSameDate(a: Day, b: Day)
    requires PlainYear(a) && a.year <= b.year && DateText(a) == DateText(b)
    ensures a == b
  {
    hide DateText;
    if b.year > 9999 {
      DateTextOrderBreaksAfter9999(a, b);
      LexIrreflexive(DateText(a));
    } else {
      DateTextOrder(a, b);
    }
  }

  /** Ticks are calls of the tick. */
  lemma {:induction false} TicksKeepEnd(db: Db, cfg: T.Config, today: Day, worlds: nat -> nat -> Turn, n: nat, id: nat)
    requires id < |db.schedules| && EndsOnTime(db.schedules[id])
    ensures id < |Ticks(db, cfg, today, worlds, n).schedules| && EndsOnTime(Ticks(db, cfg, today, worlds, n).schedules[id])
  {
    hide Tick, EndsOnTime, RowStays;
    if n > 0 {
      var before := Ticks(db, cfg, today, worlds, n - 1);
      TicksKeepEnd(db, cfg, today, worlds, n - 1, id);
      TickMovesRow(before, cfg, today, worlds(n - 1), id);
      MoveKeepsEnd(before.schedules[id], Tick(before, cfg, today, worlds(n - 1)).0.schedules[id]);
    }
  }

  lemma StartGood(calls: seq<Call>, today: Day)
    requires forall i :: 0 <= i < |calls| ==> Polite(calls[i], today) && CalmCall(calls[i])
    requires today.year <= 9998
    requires var db := RunCalls(EMPTY, calls);
             forall i: nat :: i < |db.schedules| && IsDue(db.schedules[i], today) ==> Sound(db, i)
    ensures Good(RunCalls(EMPTY, calls), today, today)
  {
    hide Inv, NumbersOk, SchedulesAt, Sound, IsDue, RunCalls, Polite, CalmCall;
    EmptyInv();
    EmptyNumbers();
    EmptySchedules(today);
    PoliteRunsKeep(EMPTY, calls, today);
    CalmRunsKeepNumbers(EMPTY, calls);
  }

  /**
   After any run of polite calls up to today, and as many ticks as it takes, a schedule nobody paused or
   cancelled has an invoice for exactly those of its run dates that have come and lie within its end.
   */
  lemma CaughtUpExactly(calls: seq<Call>, cfg: T.Config, today: Day, worlds: nat -> nat -> Turn, n: nat, id: nat, j: nat)
    requires forall i :: 0 <= i < |calls| ==> Polite(calls[i], today) && CalmCall(calls[i]) && Unset(calls[i], id)
    requires 0 <= today.year <= 9998
    requires var db := RunCalls(EMPTY, calls);
             && id < |db.schedules| && n >= Measure(db.schedules, today)
             && forall i: nat :: i < |db.schedules| && IsDue(db.schedules[i], today) ==> Sound(db, i)
    requires forall i: nat, k: nat :: GoodTurn(worlds(i)(k))
    ensures var db' := Ticks(RunCalls(EMPTY, calls), cfg, today, worlds, n);
            id < |db'.schedules| && var s := db'.schedules[id];
              HasRun(Owners(db'), id, s, j) <==> DateAtMost(RunDate(s, j), today) && WithinEnd(s, RunDate(s, j))
  {
    hide Inv, NumbersOk, SchedulesAt, Sound, IsDue, RunCalls, Ticks, Polite, CalmCall, GoodTurn, Measure, EndsOnTime,
         HasRun, Unset, WithinEnd, RunDate, LeavesSchedules;
    var db, db' := RunCalls(EMPTY, calls), Ticks(RunCalls(EMPTY, calls), cfg, today, worlds, n);
    forall i | 0 <= i < |calls|
      ensures LeavesSchedules(calls[i])
    {
      PoliteLeaves(calls[i], today);
    }
    StartGood(calls, today);
    RunKeepsEnd(EMPTY, calls, id);
    TicksKeepEnd(db, cfg, today, worlds, n, id);
    TicksCatchUp(db, cfg, today, worlds, n, today);
    NothingDueMeansAllInvoiced(db', today, id, j);
  }

  lemma PoliteLeaves(c: Call, horizon: Day)
    requires Polite(c, horizon)
    ensures LeavesSchedules(c)
  {
  }

  // ---------------------------------------------------------------------------
  // Schedules that are not active
  // ---------------------------------------------------------------------------

  /** No invoice of this schedule beyond the first `n` invoices of the store. */
  predicate NoneSince(db: Db, n: nat, id: nat) {
    forall i :: n <= i < |db.invoices| ==> db.invoices[i].schedule != Some(id)
  }

  predicate GrowsWithout(a: Db, b: Db, id: nat) {
    |a.invoices| <= |b.invoices| && NoneSince(b, |a.invoices|, id)
    && forall i :: 0 <= i < |a.invoices| ==> b.invoices[i].schedule == a.invoices[i].schedule
  }

  lemma OtherTurnAddsNone(db: Db, cfg: T.Config, other: nat, turn: Turn, id: nat)
    requires Inv(db) && other < |db.schedules| && other != id
    ensures GrowsWithout(db, RunOne(db, cfg, other, turn).0, id) && Inv(RunOne(db, cfg, other, turn).0)
  {
    hide Inv, DraftInvoice, IssueInvoice, RunKey;
    TurnGrows(db, cfg, other, turn);
    var s := db.schedules[other];
    var (drafted, d) := DraftInvoice(db, RunInput(other, s), turn.draft);
    OwnersOfDraft(db, RunInput(other, s), turn.draft);
    InvLedger(db);
    DraftOwners(db, drafted, other, s);
    if d.Success? && s.autoIssue {
      DraftInv(db, RunInput(other, s), turn.draft);
      InvLedger(drafted);
      IssueKeepsSchedules(drafted, cfg, d.value.invoice, turn.issue);
      SameOwners(drafted, IssueInvoice(drafted, cfg, d.value.invoice, turn.issue).0, id);
    }
  }

  lemma DraftOwners(db: Db, drafted: Db, other: nat, s: Schedule)
    requires Owners(drafted) == Owners(db)
             || Owners(drafted) == Owners(db) + [Owned(Some(RunKey(other, s.nextRun)), Some(other))]
    ensures forall id: nat :: id != other ==> GrowsWithout(db, drafted, id)
  {
    hide RunKey;
    assert forall i :: 0 <= i < |db.invoices| ==> Owners(drafted)[i] == Owners(db)[i];
  }

  lemma SameOwners(a: Db, b: Db, id: nat)
    requires Owners(a) == Owners(b)
    ensures |a.invoices| == |b.invoices| && forall i :: 0 <= i < |a.invoices| ==> b.invoices[i].schedule == a.invoices[i].schedule
  {
    assert forall i :: 0 <= i < |a.invoices| ==> Owners(a)[i] == Owners(b)[i];
  }

  lemma {:induction false} OtherTurnsAddNone(db: Db, cfg: T.Config, ids: seq<nat>, turns: nat -> Turn, ran: nat, id: nat)
    requires Inv(db) && InRangeOf(ids, db.schedules) && id !in ids
    ensures GrowsWithout(db, RunAll(db, cfg, ids, turns, ran).0, id)
    decreases |ids|
  {
    hide Inv, RunOne;
    if ids != [] {
      var (db', ok) := RunOne(db, cfg, ids[0], turns(ran));
      OtherTurnAddsNone(db, cfg, ids[0], turns(ran), id);
      RunOneKeepsCount(db, cfg, ids[0], turns(ran));
      if ok {
        OtherTurnsAddNone(db', cfg, ids[1..], turns, ran + 1, id);
      }
    }
  }

  lemma {:induction false} PoliteStepsAddNone(db: Db, steps: seq<Step>, id: nat)
    requires Inv(db) && forall i :: 0 <= i < |steps| ==> PoliteStep(steps[i])
    ensures GrowsWithout(db, DoAll(db, steps), id)
    decreases |steps|
  {
    hide Do, Inv;
    if steps != [] {
      var s := steps[0];
      InvAfterStep(db, s);
      if s.DraftStep? {
        OwnersOfDraft(db, s.input, s.env);
        DraftIsDo(db, s);
        assert forall i :: 0 <= i < |db.invoices| ==> Owners(Do(db, s))[i] == Owners(db)[i];
      } else {
        OwnersOfStep(db, s);
        SameOwners(db, Do(db, s), id);
      }
      PoliteStepsAddNone(Do(db, s), steps[1..], id);
    }
  }

  lemma DraftIsDo(db: Db, s: Step)
    requires s.DraftStep?
    ensures Do(db, s) == DraftInvoice(db, s.input, s.env).0
  {
    hide DraftInvoice;
  }

  /** Until somebody sets its state, or for good if it is cancelled. */
  predicate StaysInactive(s: Schedule, c: Call, id: nat) {
    s.state == Cancelled || (s.state == Paused && Unset(c, id))
  }

  lemma CallPassesInactive(db: Db, c: Call, id: nat, horizon: Day)
    requires Inv(db) && id < |db.schedules| && Polite(c, horizon) && StaysInactive(db.schedules[id], c, id)
    ensures var db' := Apply(db, c);
            Inv(db') && id < |db'.schedules| && db'.schedules[id] == db.schedules[id] && GrowsWithout(db, db', id)
  {
    hide Inv, Tick, DoAll, Receive, PoliteStep;
    PoliteLeaves(c, horizon);
    CallMovesRow(db, c, id);
    var steps := CallIsSteps(db, c);
    DoAllKeeps(db, steps);
    match c {
      case TickCall(cfg, now, turns) => TickPassesInactive(db, cfg, now.date, turns, id);
      case NewSchedule(_, _) =>
      case SetSchedule(_, _, _) =>
      case _ =>
        forall i | 0 <= i < |steps|
          ensures PoliteStep(steps[i])
        {
          PartIsPolite(steps[i], c, horizon);
        }
        PoliteStepsAddNone(db, steps, id);
    }
  }

  lemma TickPassesInactive(db: Db, cfg: T.Config, today: Day, turns: nat -> Turn, id: nat)
    requires Inv(db) && id < |db.schedules| && db.schedules[id].state != Active
    ensures GrowsWithout(db, Tick(db, cfg, today, turns).0, id)
  {
    hide Inv, RunAll, Due, Sorting.Sorted;
    DueInRange(db.schedules, today);
    OtherTurnsAddNone(db, cfg, Due(db.schedules, today), turns, 0, id);
  }

  /**
   Over any run a cancelled schedule, and a paused one until somebody sets its state, stays exactly as it
   is and gets no further invoice.
   */
  lemma {:induction false} InactiveGetsNothing(db: Db, calls: seq<Call>, id: nat, horizon: Day)
    requires Inv(db) && id < |db.schedules| && forall i :: 0 <= i < |calls| ==> Polite(calls[i], horizon)
    requires forall i :: 0 <= i < |calls| ==> StaysInactive(db.schedules[id], calls[i], id)
    ensures var later := RunCalls(db, calls);
            id < |later.schedules| && later.schedules[id] == db.schedules[id] && GrowsWithout(db, later, id)
    decreases |calls|
  {
    hide Inv, Apply, Polite, StaysInactive;
    if calls != [] {
      CallPassesInactive(db, calls[0], id, horizon);
      InactiveGetsNothing(Apply(db, calls[0]), calls[1..], id, horizon);
    }
  }

  // ---------------------------------------------------------------------------
  // What the invoices of a schedule say
  // ---------------------------------------------------------------------------

  /** The schedule's customer and currency, the fixed seller, and the template's items one for one. */
  predicate FromTemplate(inv: Invoice, lines: seq<Line>, s: Schedule) {
    && inv.customer == s.customer && inv.seller == T.QuebecCa && inv.currency == s.currency
    && |lines| == |s.lines|
    && forall k :: 0 <= k < |lines| ==> IsItem(lines[k], s.lines[k])
  }

  ghost predicate TemplatedAt(db: Db, i: nat)
    requires i < |db.invoices|
  {
    match db.invoices[i].schedule
    case None => true
    case Some(id) => id < |db.schedules| && FromTemplate(db.invoices[i], LinesOf(db, i), db.schedules[id])
  }

  ghost predicate Templated(db: Db) {
    forall i: nat :: i < |db.invoices| ==> TemplatedAt(db, i)
  }

  predicate KeepTerms(a: seq<Schedule>, b: seq<Schedule>) {
    |a| <= |b| && forall id :: 0 <= id < |a| ==> SameTerms(a[id], b[id])
  }

  /** Growth keeps what an invoice owes to its template. */
  lemma GrowthKeepsTemplate(a: Db, b: Db, i: nat)
    requires i < |a.invoices| && Grows(a, b) && TemplatedAt(a, i) && KeepTerms(a.schedules, b.schedules)
    ensures i < |b.invoices| && TemplatedAt(b, i)
  {
    assert InvoiceGrows(a.invoices[i], LinesOf(a, i), b.invoices[i], LinesOf(b, i));
  }

  lemma GrowthKeepsTemplates(a: Db, b: Db)
    requires Templated(a) && Grows(a, b) && KeepTerms(a.schedules, b.schedules)
    requires forall i: nat :: |a.invoices| <= i < |b.invoices| ==> TemplatedAt(b, i)
    ensures Templated(b)
  {
    hide Grows, TemplatedAt, KeepTerms;
    forall i: nat | i < |b.invoices|
      ensures TemplatedAt(b, i)
    {
      if i < |a.invoices| {
        GrowthKeepsTemplate(a, b, i);
      }
    }
  }

  /** The invoice a turn drafts is the template's. */
  lemma ScheduledDraftKeepsTemplates(db: Db, id: nat, env: Env)
    requires Inv(db) && Templated(db) && id < |db.schedules|
    ensures var drafted := DraftInvoice(db, RunInput(id, db.schedules[id]), env).0;
            Templated(drafted) && Inv(drafted) && drafted.schedules == db.schedules
  {
    hide Inv, RunKey, TemplatedAt, DraftInvoice, Quotes;
    var s := db.schedules[id];
    var input := RunInput(id, s);
    var (drafted, r) := DraftInvoice(db, input, env);
    DraftInv(db, input, env);
    DraftFrame(db, input, env);
    DraftAnswers(db, input, env);
    if r.Success? {
      FreshOrReplay(db, input, env);
      if !r.value.replay {
        DraftRecords(db, input, env);
        DraftGrows(db, input, env);
        NewInvoiceIsTemplated(drafted, |db.invoices|, id, s);
        SameKeepTerms(db.schedules);
        GrowthKeepsTemplates(db, drafted);
      }
    }
  }

  lemma NewInvoiceIsTemplated(db: Db, i: nat, id: nat, s: Schedule)
    requires i < |db.invoices| && id < |db.schedules| && db.schedules[id] == s
    requires var inv := db.invoices[i];
             inv.schedule == Some(id) && inv.customer == s.customer && inv.seller == T.QuebecCa && inv.currency == s.currency
    requires Quotes(s.currency, LinesOf(db, i), s.lines)
    ensures TemplatedAt(db, i)
  {
  }

  lemma SameKeepTerms(schedules: seq<Schedule>)
    ensures KeepTerms(schedules, schedules)
  {
  }

  lemma TurnKeepsTemplates(db: Db, cfg: T.Config, id: nat, turn: Turn)
    requires Inv(db) && Templated(db) && id < |db.schedules|
    ensures Templated(RunOne(db, cfg, id, turn).0) && Inv(RunOne(db, cfg, id, turn).0)
  {
    hide Inv, TemplatedAt, DraftInvoice, IssueInvoice, RunInput, NextCycle;
    var s := db.schedules[id];
    var (drafted, d) := DraftInvoice(db, RunInput(id, s), turn.draft);
    ScheduledDraftKeepsTemplates(db, id, turn.draft);
    TurnGrows(db, cfg, id, turn);
    if d.Success? && s.autoIssue {
      IssueKeepsTemplates(drafted, cfg, d.value.invoice, turn.issue);
    }
    SaveKeepsTemplates(db, cfg, id, turn);
  }

  lemma IssueKeepsTemplates(db: Db, cfg: T.Config, invoice: nat, env: Env)
    requires Inv(db) && Templated(db)
    ensures Templated(IssueInvoice(db, cfg, invoice, env).0)
  {
    hide Inv, TemplatedAt, IssueInvoice;
    InvLedger(db);
    IssueGrows(db, cfg, invoice, env);
    IssueFrame(db, cfg, invoice, env);
    OnlyDraftsAdd(db, IssueStep(cfg, invoice, env));
    SameKeepTerms(db.schedules);
    GrowthKeepsTemplates(db, IssueInvoice(db, cfg, invoice, env).0);
  }

  lemma SaveKeepsTemplates(db: Db, cfg: T.Config, id: nat, turn: Turn)
    requires id < |db.schedules| && Templated(Materialise(db, cfg, id, db.schedules[id], turn).0)
    ensures Templated(RunOne(db, cfg, id, turn).0)
  {
    hide Materialise, FromTemplate, Advance;
    MaterialiseFrame(db, cfg, id, db.schedules[id], turn);
    var mid, db' := Materialise(db, cfg, id, db.schedules[id], turn).0, RunOne(db, cfg, id, turn).0;
    forall i: nat | i < |db'.invoices|
      ensures TemplatedAt(db', i)
    {
      assert TemplatedAt(mid, i);
      if db'.invoices[i].schedule == Some(id) {
        NextCycleTemplate(db'.invoices[i], LinesOf(db', i), db.schedules[id]);
      }
    }
  }

  lemma NextCycleTemplate(inv: Invoice, lines: seq<Line>, s: Schedule)
    ensures FromTemplate(inv, lines, NextCycle(s)) == FromTemplate(inv, lines, s)
  {
    hide Advance;
  }

  lemma {:induction false} TurnsKeepTemplates(db: Db, cfg: T.Config, ids: seq<nat>, turns: nat -> Turn, ran: nat)
    requires Inv(db) && Templated(db) && InRangeOf(ids, db.schedules)
    ensures Templated(RunAll(db, cfg, ids, turns, ran).0)
    decreases |ids|
  {
    hide Inv, RunOne, Templated;
    if ids != [] {
      var (db', ok) := RunOne(db, cfg, ids[0], turns(ran));
      TurnKeepsTemplates(db, cfg, ids[0], turns(ran));
      RunOneKeepsCount(db, cfg, ids[0], turns(ran));
      if ok {
        TurnsKeepTemplates(db', cfg, ids[1..], turns, ran + 1);
      }
    }
  }

  lemma CallKeepsTemplates(db: Db, c: Call, horizon: Day)
    requires Inv(db) && Templated(db) && Polite(c, horizon)
    ensures Templated(Apply(db, c)) && Inv(Apply(db, c))
  {
    hide Inv, Templated, Apply, DoAll, PoliteStep;
    PoliteLeaves(c, horizon);
    var steps := CallIsSteps(db, c);
    DoAllKeeps(db, steps);
    if c.TickCall? {
      TickKeepsTemplates(db, c);
    } else {
      RestKeepsTemplates(db, c, horizon, steps);
    }
  }

  lemma TickKeepsTemplates(db: Db, c: Call)
    requires Inv(db) && Templated(db) && c.TickCall?
    ensures Templated(Apply(db, c))
  {
    hide Inv, Templated, RunAll, Due, Sorting.Sorted;
    DueInRange(db.schedules, c.now.date);
    TurnsKeepTemplates(db, c.cfg, Due(db.schedules, c.now.date), c.turns, 0);
  }

  /** Other calls add no scheduled invoice and change no terms. */
  lemma RestKeepsTemplates(db: Db, c: Call, horizon: Day, steps: seq<Step>)
    requires Inv(db) && Templated(db) && Polite(c, horizon) && !c.TickCall?
    requires DoAll(db, steps) == Apply(db, c) && AllPartOf(steps, c) && Grows(db, Apply(db, c))
    ensures Templated(Apply(db, c))
  {
    hide Inv, TemplatedAt, Apply, DoAll, PoliteStep, Grows, SameTerms, GrowsWithout;
    var db' := Apply(db, c);
    PoliteLeaves(c, horizon);
    forall id | 0 <= id < |db.schedules|
      ensures id < |db'.schedules| && SameTerms(db.schedules[id], db'.schedules[id])
    {
      MovedKeepsTerms(db, c, id);
    }
    RestKeepsCount(db, c);
    forall i: nat | |db.invoices| <= i < |db'.invoices|
      ensures TemplatedAt(db', i)
    {
      RestAddsUnscheduled(db, c, horizon, steps, i);
    }
    GrowthKeepsTemplates(db, db');
  }

  lemma MovedKeepsTerms(db: Db, c: Call, id: nat)
    requires LeavesSchedules(c) && id < |db.schedules|
    ensures id < |Apply(db, c).schedules| && SameTerms(db.schedules[id], Apply(db, c).schedules[id])
  {
    hide Apply, Advance;
    CallMovesRow(db, c, id);
  }

  lemma RestKeepsCount(db: Db, c: Call)
    requires LeavesSchedules(c)
    ensures |db.schedules| <= |Apply(db, c).schedules|
  {
    hide Apply, RowStays;
    if |db.schedules| > 0 {
      CallMovesRow(db, c, |db.schedules| - 1);
    }
  }

  lemma RestAddsUnscheduled(db: Db, c: Call, horizon: Day, steps: seq<Step>, i: nat)
    requires Inv(db) && Polite(c, horizon) && !c.TickCall?
    requires DoAll(db, steps) == Apply(db, c) && AllPartOf(steps, c)
    requires |db.invoices| <= i < |Apply(db, c).invoices|
    ensures TemplatedAt(Apply(db, c), i)
  {
    hide Inv, DoAll, PoliteStep;
    if c.Command? || c.Deliver? {
      forall k | 0 <= k < |steps|
        ensures PoliteStep(steps[k])
      {
        PartIsPolite(steps[k], c, horizon);
      }
      var schedule := Apply(db, c).invoices[i].schedule;
      PoliteStepsAddNone(db, steps, if schedule.Some? then schedule.value else 0);
    }
  }

  lemma {:induction false} RunKeepsTemplates(db: Db, calls: seq<Call>, horizon: Day)
    requires Inv(db) && Templated(db) && forall i :: 0 <= i < |calls| ==> Polite(calls[i], horizon)
    ensures Templated(RunCalls(db, calls))
    decreases |calls|
  {
    hide Inv, Templated, Apply, Polite;
    if calls != [] {
      CallKeepsTemplates(db, calls[0], horizon);
      RunKeepsTemplates(Apply(db, calls[0]), calls[1..], horizon);
    }
  }

  /** Over any run every invoice of a schedule is for its customer, from Quebec, in its currency, with its items. */
  lemma ScheduledInvoicesFollowTheTemplate(calls: seq<Call>, horizon: Day, i: nat)
    requires forall k :: 0 <= k < |calls| ==> Polite(calls[k], horizon)
    requires i < |RunCalls(EMPTY, calls).invoices| && RunCalls(EMPTY, calls).invoices[i].schedule.Some?
    ensures var db := RunCalls(EMPTY, calls);
            var id := db.invoices[i].schedule.value;
            id < |db.schedules| && FromTemplate(db.invoices[i], LinesOf(db, i), db.schedules[id])
  {
    hide Inv, RunCalls, Polite;
    EmptyInv();
    RunKeepsTemplates(EMPTY, calls, horizon);
    assert TemplatedAt(RunCalls(EMPTY, calls), i);
  }

  /** A turn that succeeds leaves the invoice of its run issued exactly if the schedule issues by itself or it was already. */
  lemma TurnIssuesOnDemand(db: Db, cfg: T.Config, id: nat, turn: Turn)
    requires Inv(db) && id < |db.schedules| && RunOne(db, cfg, id, turn).1
    requires forall i :: 0 <= i < |db.invoices| ==> db.invoices[i].key != Some(RunKey(id, db.schedules[id].nextRun))
    ensures var db', s := RunOne(db, cfg, id, turn).0, db.schedules[id];
            && |db'.invoices| == |db.invoices| + 1 && |db'.schedules| == |db.schedules|
            && db'.invoices[|db.invoices|].key == Some(RunKey(id, s.nextRun))
            && db'.invoices[|db.invoices|].state == (if s.autoIssue then Issued else State.Draft)
            && db'.schedules[id].lastRun == Some(s.nextRun)
  {
    hide Inv, DraftInvoice, IssueInvoice, RunKey, Quotes, Advance;
    var s := db.schedules[id];
    var input := RunInput(id, s);
    var (drafted, d) := DraftInvoice(db, input, turn.draft);
    DraftAnswers(db, input, turn.draft);
    FreshOrReplay(db, input, turn.draft);
    DraftRecords(db, input, turn.draft);
    MaterialiseFrame(db, cfg, id, s, turn);
    if s.autoIssue {
      DraftInv(db, input, turn.draft);
      IssueRecords(drafted, cfg, |db.invoices|, turn.issue);
    }
  }
}
