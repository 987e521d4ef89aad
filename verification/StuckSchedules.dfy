/**
 What a lost save after an auto-issue does to the rest of a run (crates/commands/src/schedule.rs): the
 schedule never moves again, and no tick gets past it while it is active.
 */
module StuckSchedules {
  import opened Wrappers
  import opened Calendar
  import opened Cadences
  import opened Tables
  import opened Ledger
  import opened Scheduler
  import opened Runs
  import opened Safety
  import opened NumberRuns
  import opened ScheduleRuns
  import opened ScheduleProgress
  import M = Money
  import Sorting
  import Text
  import T = Tax

  /** The same schedule at the same place; its state alone may differ. */
  predicate SamePlace(a: Schedule, b: Schedule) {
    b == a.(state := b.state)
  }

  predicate KeepsPlace(a: Db, b: Db, id: nat) {
    id < |a.schedules| && id < |b.schedules| && SamePlace(a.schedules[id], b.schedules[id])
  }

  /** A spent invoice never becomes a draft again, so a schedule that stays in place stays stuck. */
  lemma StuckStays(a: Db, b: Db, id: nat)
    requires KeepsPlace(a, b, id) && Stuck(a, id) && Grows(a, b)
    ensures Stuck(b, id)
  {
    hide RunKey;
    var key := RunKey(id, a.schedules[id].nextRun);
    var i :| 0 <= i < |a.invoices| && IsSpent(a.invoices[i], key);
    assert InvoiceGrows(a.invoices[i], LinesOf(a, i), b.invoices[i], LinesOf(b, i));
    assert IsSpent(b.invoices[i], key);
  }

  /** Callers leave the schedules table to the scheduler. */
  predicate LeavesSchedules(c: Call) {
    c.Command? ==> !c.step.SaveSchedules?
  }

  lemma {:induction false} SchedulesOfSteps(db: Db, steps: seq<Step>)
    requires forall i :: 0 <= i < |steps| ==> !steps[i].SaveSchedules?
    ensures DoAll(db, steps).schedules == db.schedules
    decreases |steps|
  {
    hide Do;
    if steps != [] {
      SchedulesOfStep(db, steps[0]);
      SchedulesOfSteps(Do(db, steps[0]), steps[1..]);
    }
  }

  lemma TurnGrows(db: Db, cfg: T.Config, id: nat, turn: Turn)
    requires Inv(db) && id < |db.schedules|
    ensures Inv(RunOne(db, cfg, id, turn).0) && Grows(db, RunOne(db, cfg, id, turn).0)
  {
    hide Inv, RunOne, Grows;
    var steps := TurnIsSteps(db, cfg, id, turn);
    DoAllKeeps(db, steps);
  }

  /** Another schedule's turn leaves a stuck one stuck, row and all. */
  lemma OtherTurnKeepsStuck(db: Db, cfg: T.Config, other: nat, turn: Turn, id: nat)
    requires Inv(db) && id < |db.schedules| && other < |db.schedules| && other != id && Stuck(db, id)
    ensures var db' := RunOne(db, cfg, other, turn).0;
            && Inv(db') && |db'.schedules| == |db.schedules|
            && db'.schedules[id] == db.schedules[id] && Stuck(db', id)
  {
    hide Inv, RunOne, Grows, Stuck, NextCycle;
    TurnGrows(db, cfg, other, turn);
    RunOneSchedules(db, cfg, other, turn);
    StuckStays(db, RunOne(db, cfg, other, turn).0, id);
  }

  predicate InRangeOf(ids: seq<nat>, schedules: seq<Schedule>) {
    forall i :: 0 <= i < |ids| ==> ids[i] < |schedules|
  }

  /** A tick never moves a stuck schedule; if it comes to its turn, it stops there. */
  lemma {:induction false} RunAllStopsAtStuck(db: Db, cfg: T.Config, ids: seq<nat>, turns: nat -> Turn, ran: nat, id: nat)
    requires Inv(db) && InRangeOf(ids, db.schedules) && id < |db.schedules| && Stuck(db, id)
    ensures var (db', ran', ok) := RunAll(db, cfg, ids, turns, ran);
            && db'.schedules[id] == db.schedules[id]
            && (forall p :: 0 <= p < |ids| && ids[p] == id ==> !ok && ran' <= ran + p)
    decreases |ids|
  {
    hide Inv, RunOne, Stuck;
    if ids != [] {
      var (db', ok) := RunOne(db, cfg, ids[0], turns(ran));
      if ids[0] == id {
        InvLedger(db);
        StuckTurnFails(db, cfg, id, turns(ran));
      } else {
        OtherTurnKeepsStuck(db, cfg, ids[0], turns(ran), id);
        if ok {
          RunAllStopsAtStuck(db', cfg, ids[1..], turns, ran + 1, id);
          assert forall p :: 0 < p < |ids| ==> ids[p] == ids[1..][p - 1];
        }
      }
    }
  }

  lemma TickStopsAtStuck(db: Db, cfg: T.Config, today: Day, turns: nat -> Turn, id: nat)
    requires Inv(db) && id < |db.schedules| && Stuck(db, id)
    ensures var (db', ran, ok) := Tick(db, cfg, today, turns);
            && |db'.schedules| == |db.schedules| && db'.schedules[id] == db.schedules[id]
            && (forall p :: 0 <= p < |Due(db.schedules, today)| && Due(db.schedules, today)[p] == id ==> !ok && ran <= p)
            && (DueText(db.schedules[id], today) ==> !ok)
  {
    hide Inv, RunAll, Stuck, Due, DueText, Sorting.Sorted;
    DueInRange(db.schedules, today);
    RunAllStopsAtStuck(db, cfg, Due(db.schedules, today), turns, 0, id);
  }

  lemma CallKeepsPlace(db: Db, c: Call, id: nat)
    requires Inv(db) && id < |db.schedules| && Stuck(db, id) && LeavesSchedules(c)
    ensures KeepsPlace(db, Apply(db, c), id)
  {
    hide Inv, Stuck, Tick, DoAll;
    match c {
      case TickCall(cfg, now, turns) => TickStopsAtStuck(db, cfg, now.date, turns, id);
      case NewSchedule(_, _) =>
      case SetSchedule(_, _, _) =>
      case _ =>
        var steps := CallIsSteps(db, c);
        forall i | 0 <= i < |steps|
          ensures !steps[i].SaveSchedules?
        {
          assert PartOf(steps[i], c);
        }
        SchedulesOfSteps(db, steps);
    }
  }

  lemma CallKeepsStuck(db: Db, c: Call, id: nat)
    requires Inv(db) && id < |db.schedules| && Stuck(db, id) && LeavesSchedules(c)
    ensures Inv(Apply(db, c)) && KeepsPlace(db, Apply(db, c), id) && Stuck(Apply(db, c), id)
  {
    hide Inv, Stuck, Apply, DoAll, Grows, SamePlace;
    CallKeepsPlace(db, c, id);
    var steps := CallIsSteps(db, c);
    DoAllKeeps(db, steps);
    StuckStays(db, Apply(db, c), id);
  }

  /** Over any run a stuck schedule stays where it is, and stuck: only its state can change. */
  lemma {:induction false} StuckForGood(db: Db, calls: seq<Call>, id: nat)
    requires Inv(db) && id < |db.schedules| && Stuck(db, id)
    requires forall i :: 0 <= i < |calls| ==> LeavesSchedules(calls[i])
    ensures var later := RunCalls(db, calls);
            Inv(later) && KeepsPlace(db, later, id) && Stuck(later, id)
    decreases |calls|
  {
    hide Inv, Stuck, Apply, LeavesSchedules;
    if calls != [] {
      CallKeepsStuck(db, calls[0], id);
      StuckForGood(Apply(db, calls[0]), calls[1..], id);
    }
  }

  /**
   So after any run, every tick that finds it due fails, and runs none but the schedules that were due
   before it. Making it inactive is the only way past.
   */
  lemma StuckHoldsUpEveryTick(db: Db, calls: seq<Call>, id: nat, cfg: T.Config, today: Day, turns: nat -> Turn)
    requires Inv(db) && id < |db.schedules| && Stuck(db, id)
    requires forall i :: 0 <= i < |calls| ==> LeavesSchedules(calls[i])
    ensures var later := RunCalls(db, calls);
            var due, (after, ran, ok) := Due(later.schedules, today), Tick(later, cfg, today, turns);
            && id < |later.schedules|
            && (DueText(later.schedules[id], today) ==> !ok)
            && (forall p :: 0 <= p < |due| && due[p] == id ==> ran <= p && !ok)
            && (DueText(later.schedules[id], today)
                <==> later.schedules[id].state == Active && DueText(db.schedules[id].(state := Active), today))
  {
    hide Inv, Stuck, RunCalls, Tick, Due, LeavesSchedules;
    StuckForGood(db, calls, id);
    TickStopsAtStuck(RunCalls(db, calls), cfg, today, turns, id);
  }

  // ---------------------------------------------------------------------------
  // How it happens
  // ---------------------------------------------------------------------------

  const START: Day := Date(2027, 3, 1)

  const NOON: Instant := Stamp(START, 43200, 0)

  const HOSTING: ScheduleInput :=
    ScheduleInput(0, [DraftLine("Hosting", 1.0, 1.0, T.Standard)], M.Currency("CAD"), Monthly(1), START, None, true)

  function FirstCalls(env: Env): seq<Call> {
    [Command(SaveCustomer(0, BUYER)), NewSchedule(HOSTING, env)]
  }

  lemma FirstStore(env: Env)
    requires env.commits
    ensures var db := RunCalls(EMPTY, FirstCalls(env));
            && Good(db, START, START) && db.invoices == [] && |db.schedules| == 1
            && IsDue(db.schedules[0], START) && db.schedules[0].autoIssue
  {
    hide Inv, SchedulesAt, NumbersOk, ValidDraft;
    var calls := FirstCalls(env);
    EmptyInv();
    EmptyNumbers();
    EmptySchedules(START);
    PoliteRunsKeep(EMPTY, calls, START);
    CalmRunsKeepNumbers(EMPTY, calls);
    var named := EMPTY.(customers := [BUYER]);
    TwoCalls(EMPTY, calls[0], calls[1]);
    assert Apply(EMPTY, calls[0]) == named;
    HostingIsValid(0);
  }

  lemma HostingIsValid(id: nat)
    ensures ValidSchedule(HOSTING)
    ensures forall s: Schedule :: s.lines == HOSTING.lines && s.currency == HOSTING.currency ==> ValidDraft(RunInput(id, s))
  {
    hide RunKey;
    var l := DraftLine("Hosting", 1.0, 1.0, T.Standard);
    assert HOSTING.lines == [l] && !Text.IsSpace(l.description[0]) && l.description[0] in l.description;
  }

  /** One customer, one schedule, and one tick whose save is lost after its issue. */
  lemma StuckHappens(cfg: T.Config, env: Env, turns: nat -> Turn)
    requires env.commits && GoodTurn(turns(0).(saves := true)) && !turns(0).saves
    ensures var db := RunCalls(EMPTY, FirstCalls(env) + [TickCall(cfg, NOON, turns)]);
            Inv(db) && |db.schedules| == 1 && Stuck(db, 0) && IsDue(db.schedules[0], START)
  {
    hide Good, FirstCalls, RunCalls, Stuck, GoodTurn, IsDue, Inv;
    var db, tick := RunCalls(EMPTY, FirstCalls(env)), TickCall(cfg, NOON, turns);
    EmptyInv();
    RunKeeps(EMPTY, FirstCalls(env) + [tick]);
    FirstStore(env);
    RunCallsAppend(EMPTY, FirstCalls(env), [tick]);
    OneCall(db, tick);
    OnlyOneDue(db);
    LostSaveSticks(db, cfg, 0, turns(0), START, START);
    TickOfOne(db, cfg, turns);
  }

  lemma OneCall(db: Db, c: Call)
    ensures RunCalls(db, [c]) == Apply(db, c)
  {
    hide Apply;
    assert [c][1..] == [];
    assert RunCalls(Apply(db, c), []) == Apply(db, c);
  }

  lemma OnlyOneDue(db: Db)
    requires Good(db, START, START) && |db.schedules| == 1 && IsDue(db.schedules[0], START)
    ensures Due(db.schedules, START) == [0]
  {
    hide Inv, NumbersOk, Sound, Due, SchedulesAt, IsDue;
    var due := Due(db.schedules, START);
    var ends := if |due| > 1 then [due[0], due[1]] else due;
    PlainRunsOf(Owners(db), db.schedules, START);
    DueIsExact(db.schedules, START);
    assert 0 in due;
  }

  lemma TickOfOne(db: Db, cfg: T.Config, turns: nat -> Turn)
    requires |db.schedules| == 1 && Due(db.schedules, START) == [0] && !RunOne(db, cfg, 0, turns(0)).1
    ensures Tick(db, cfg, START, turns).0 == RunOne(db, cfg, 0, turns(0)).0
  {
    hide RunOne, Due;
  }
}
