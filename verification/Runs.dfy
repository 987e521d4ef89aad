/**
 Whole runs of the system. Every call is a sequence of single transactions; what each transaction
 keeps, every run keeps, whatever fails and wherever a call stops.
 */
module Runs {
  import opened Wrappers
  import opened Calendar
  import opened Tables
  import opened Ledger
  import opened Outbox
  import opened Inbox
  import opened Scheduler
  import T = Tax

  // ---------------------------------------------------------------------------
  // Transactions and calls
  // ---------------------------------------------------------------------------

  /** One transaction, or one relay pass. */
  datatype Step =
    | DraftStep(input: DraftInput, env: Env)
    | IssueStep(cfg: T.Config, id: nat, env: Env)
    | SendStep(id: nat, uri: string, key: Option<string>, path: SendPath, env: Env)
    | ViewStep(id: nat, env: Env)
    | PayStep(id: nat, amount: real, receivedAt: Option<Instant>, busEvent: Option<string>, env: Env)
    | VoidStep(id: nat, env: Env)
    | CreditStep(id: nat, amount: real, refundRef: Option<string>, env: Env)
    | IssueCreditStep(note: nat, env: Env)
    | RelayStep(limit: int, faults: nat -> Fault)
    | SaveCustomer(customer: nat, address: T.Address)
    | SaveSchedules(schedules: seq<Schedule>)
    | SaveInbox(inbox: map<string, bool>)

  function Do(db: Db, s: Step): Db {
    match s
    case DraftStep(input, env) => DraftInvoice(db, input, env).0
    case IssueStep(cfg, id, env) => IssueInvoice(db, cfg, id, env).0
    case SendStep(id, uri, key, path, env) => SendInvoice(db, id, uri, key, path, env).0
    case ViewStep(id, env) => ViewInvoice(db, id, env).0
    case PayStep(id, amount, receivedAt, busEvent, env) => MarkPaid(db, id, amount, receivedAt, busEvent, env).0
    case VoidStep(id, env) => VoidInvoice(db, id, env).0
    case CreditStep(id, amount, refundRef, env) => CreateCreditNote(db, id, amount, refundRef, env).0
    case IssueCreditStep(note, env) => IssueCreditNote(db, note, env).0
    case RelayStep(limit, faults) => Relay(db, limit, faults).db
    case SaveCustomer(customer, address) => PutCustomer(db, customer, address)
    case SaveSchedules(schedules) => db.(schedules := schedules)
    case SaveInbox(inbox) => if db.inbox.Keys <= inbox.Keys then db.(inbox := inbox) else db
  }

  /** The customer upsert: a new row at the end, or an edited address. */
  function PutCustomer(db: Db, customer: nat, address: T.Address): Db {
    if customer < |db.customers| then db.(customers := db.customers[customer := address])
    else db.(customers := db.customers + [address])
  }

  function DoAll(db: Db, steps: seq<Step>): Db
    decreases |steps|
  {
    if steps == [] then db else DoAll(Do(db, steps[0]), steps[1..])
  }

  lemma {:induction false} DoAllAppend(db: Db, s: seq<Step>, t: seq<Step>)
    ensures DoAll(db, s + t) == DoAll(DoAll(db, s), t)
    decreases |s|
  {
    hide Do;
    if s == [] {
      assert s + t == t;
    } else {
      assert (s + t)[1..] == s[1..] + t && (s + t)[0] == s[0];
      DoAllAppend(Do(db, s[0]), s[1..], t);
    }
  }

  /**
   One call from outside: a command, a bus delivery, a schedule change or a tick. A command may carry
   any transaction, the bookkeeping ones too, which is more than callers can reach.
   */
  datatype Call =
    | Command(step: Step)
    | Deliver(delivery: Delivery)
    | NewSchedule(input: ScheduleInput, env: Env)
    | SetSchedule(id: nat, to: ScheduleState, env: Env)
    | TickCall(cfg: T.Config, now: Instant, turns: nat -> Turn)

  /** The transactions a call is made of. */
  ghost predicate PartOf(s: Step, c: Call) {
    match c
    case Command(step) => s == step
    case Deliver(d) =>
      || s.PayStep? || s.CreditStep? || s.SaveInbox?
      || (s.DraftStep? && d.payload.ChargeCreated? && d.payload.customer.Some? && s.input == ChargeInput(d))
    case TickCall(_, _, turns) =>
      s.DraftStep? || s.SaveSchedules? || (s.IssueStep? && exists n: nat :: s.env == turns(n).issue)
    case _ => s.SaveSchedules?
  }

  ghost predicate AllPartOf(steps: seq<Step>, c: Call) {
    forall i :: 0 <= i < |steps| ==> PartOf(steps[i], c)
  }

  /** A tick takes its turns in order: `at` names the turn each transaction belongs to. */
  ghost predicate InTurn(steps: seq<Step>, turns: nat -> Turn, at: seq<nat>) {
    && |at| == |steps|
    && (forall i, j :: 0 <= i <= j < |at| ==> at[i] <= at[j])
    && (forall i :: 0 <= i < |steps| && steps[i].IssueStep? ==> steps[i].env == turns(at[i]).issue)
  }

  ghost predicate TurnsInOrder(steps: seq<Step>, c: Call) {
    c.TickCall? ==> exists at: seq<nat> :: InTurn(steps, c.turns, at)
  }

  function Apply(db: Db, c: Call): Db {
    match c
    case Command(step) => Do(db, step)
    case Deliver(d) => Receive(db, d)
    case NewSchedule(input, env) => CreateSchedule(db, input, env).0
    case SetSchedule(id, to, env) => ChangeState(db, id, to, env).0
    case TickCall(cfg, now, turns) => Tick(db, cfg, now.date, turns).0
  }

  function RunCalls(db: Db, calls: seq<Call>): Db
    decreases |calls|
  {
    if calls == [] then db else RunCalls(Apply(db, calls[0]), calls[1..])
  }

  lemma {:induction false} RunCallsAppend(db: Db, a: seq<Call>, b: seq<Call>)
    ensures RunCalls(db, a + b) == RunCalls(RunCalls(db, a), b)
    decreases |a|
  {
    hide Apply;
    if a == [] {
      assert a + b == b;
    } else {
      assert (a + b)[1..] == a[1..] + b && (a + b)[0] == a[0];
      RunCallsAppend(Apply(db, a[0]), a[1..], b);
    }
  }

  lemma DispatchIsAStep(db: Db, d: Delivery) returns (steps: seq<Step>)
    ensures DoAll(db, steps) == Dispatch(db, d).0 && AllPartOf(steps, Deliver(d))
  {
    hide DraftInvoice, MarkPaid, CreateCreditNote;
    steps := [];
    match d.payload {
      case ChargeCreated(customer, _, _, _, _) =>
        if customer.Some? {
          steps := [DraftStep(ChargeInput(d), d.env)];
        }
      case PaymentReceived(ref, amount, receivedAt) =>
        if ref.Some? {
          steps := [PayStep(ref.value, amount, Some(receivedAt), Some(d.eventId), d.env)];
        }
      case PaymentRefunded(ref, refund, refundId) =>
        if ref.Some? {
          steps := [CreditStep(ref.value, refund, Some(if refundId.Some? then refundId.value else d.eventId), d.env)];
        }
      case Unroutable =>
    }
    if steps != [] {
      OneStep(db, steps[0]);
    }
  }

  lemma OneStep(db: Db, s: Step)
    ensures DoAll(db, [s]) == Do(db, s)
  {
    hide Do;
    assert DoAll(Do(db, s), [s][1..]) == Do(db, s);
  }

  lemma ReceiveIsSteps(db: Db, d: Delivery) returns (steps: seq<Step>)
    ensures DoAll(db, steps) == Receive(db, d) && AllPartOf(steps, Deliver(d))
  {
    hide Dispatch;
    steps := [];
    if d.eventId !in db.inbox && d.inserts {
      var received := db.(inbox := db.inbox[d.eventId := false]);
      var first := SaveInbox(db.inbox[d.eventId := false]);
      steps := [first];
      OneStep(db, first);
      if d.survives {
        var middle := DispatchIsAStep(received, d);
        DoAllAppend(db, [first], middle);
        steps := [first] + middle;
        var (db', ok) := Dispatch(received, d);
        DispatchKeepsInbox(received, d);
        if ok {
          var last := SaveInbox(db'.inbox[d.eventId := true]);
          OneStep(db', last);
          DoAllAppend(db, steps, [last]);
          steps := steps + [last];
        }
      }
    }
  }

  lemma TurnIsSteps(db: Db, cfg: T.Config, id: nat, turn: Turn) returns (steps: seq<Step>)
    requires id < |db.schedules|
    ensures DoAll(db, steps) == RunOne(db, cfg, id, turn).0
    ensures forall i :: 0 <= i < |steps| ==>
              steps[i].DraftStep? || steps[i].SaveSchedules? || (steps[i].IssueStep? && steps[i].env == turn.issue)
  {
    hide DraftInvoice, IssueInvoice;
    var s := db.schedules[id];
    var (drafted, d) := DraftInvoice(db, RunInput(id, s), turn.draft);
    var first := DraftStep(RunInput(id, s), turn.draft);
    OneStep(db, first);
    steps := [first];
    if d.Success? && s.autoIssue {
      var issue := IssueStep(cfg, d.value.invoice, turn.issue);
      OneStep(drafted, issue);
      DoAllAppend(db, steps, [issue]);
      steps := steps + [issue];
    }
    var (db', ok) := Materialise(db, cfg, id, s, turn);
    assert DoAll(db, steps) == db';
    MaterialiseFrame(db, cfg, id, s, turn);
    if ok && turn.saves {
      var save := SaveSchedules(db'.schedules[id := NextCycle(s)]);
      OneStep(db', save);
      DoAllAppend(db, steps, [save]);
      steps := steps + [save];
    }
  }

  lemma {:induction false} RunAllIsSteps(db: Db, cfg: T.Config, ids: seq<nat>, turns: nat -> Turn, ran: nat, c: Call)
    returns (steps: seq<Step>, at: seq<nat>)
    requires forall i :: 0 <= i < |ids| ==> ids[i] < |db.schedules|
    requires c.TickCall? && c.turns == turns
    ensures DoAll(db, steps) == RunAll(db, cfg, ids, turns, ran).0 && AllPartOf(steps, c)
    ensures InTurn(steps, turns, at) && forall i :: 0 <= i < |at| ==> at[i] >= ran
    decreases |ids|
  {
    hide RunOne;
    steps, at := [], [];
    if ids != [] {
      steps := TurnIsSteps(db, cfg, ids[0], turns(ran));
      at := seq(|steps|, _ => ran);
      var (db', ok) := RunOne(db, cfg, ids[0], turns(ran));
      RunOneKeepsCount(db, cfg, ids[0], turns(ran));
      if ok {
        var rest, restAt := RunAllIsSteps(db', cfg, ids[1..], turns, ran + 1, c);
        DoAllAppend(db, steps, rest);
        TurnsAppend(steps, at, rest, restAt, turns, ran);
        steps, at := steps + rest, at + restAt;
      }
    }
  }

  lemma TurnsAppend(s: seq<Step>, a: seq<nat>, t: seq<Step>, b: seq<nat>, turns: nat -> Turn, ran: nat)
    requires InTurn(s, turns, a) && InTurn(t, turns, b)
    requires (forall i :: 0 <= i < |a| ==> a[i] == ran) && forall i :: 0 <= i < |b| ==> b[i] > ran
    ensures InTurn(s + t, turns, a + b)
  {
  }

  lemma RunOneKeepsCount(db: Db, cfg: T.Config, id: nat, turn: Turn)
    requires id < |db.schedules|
    ensures |RunOne(db, cfg, id, turn).0.schedules| == |db.schedules|
  {
    hide Materialise;
    MaterialiseFrame(db, cfg, id, db.schedules[id], turn);
  }

  /** Every call is a sequence of transactions, wherever it stops. */
  lemma CallIsSteps(db: Db, c: Call) returns (steps: seq<Step>)
    ensures DoAll(db, steps) == Apply(db, c) && AllPartOf(steps, c) && TurnsInOrder(steps, c)
    ensures c.Command? ==> |steps| == 1
  {
    hide DoAll, Apply, AllPartOf, InTurn;
    match c {
      case Command(step) => steps := CommandIsAStep(db, step);
      case Deliver(d) => steps := DeliveryIsSteps(db, d);
      case NewSchedule(input, env) => steps := NewScheduleIsAStep(db, input, env);
      case SetSchedule(id, to, env) => steps := SetScheduleIsAStep(db, id, to, env);
      case TickCall(cfg, now, turns) => steps := TickIsSteps(db, cfg, now, turns);
    }
  }

  lemma CommandIsAStep(db: Db, step: Step) returns (steps: seq<Step>)
    ensures DoAll(db, steps) == Apply(db, Command(step)) && AllPartOf(steps, Command(step)) && |steps| == 1
  {
    hide Do, DoAll;
    OneStep(db, step);
    steps := [step];
  }

  lemma DeliveryIsSteps(db: Db, d: Delivery) returns (steps: seq<Step>)
    ensures DoAll(db, steps) == Apply(db, Deliver(d)) && AllPartOf(steps, Deliver(d))
  {
    hide Receive, DoAll, AllPartOf;
    steps := ReceiveIsSteps(db, d);
  }

  lemma NewScheduleIsAStep(db: Db, input: ScheduleInput, env: Env) returns (steps: seq<Step>)
    ensures DoAll(db, steps) == Apply(db, NewSchedule(input, env)) && AllPartOf(steps, NewSchedule(input, env))
  {
    hide DoAll;
    steps := ScheduleStep(db, CreateSchedule(db, input, env).0);
  }

  lemma SetScheduleIsAStep(db: Db, id: nat, to: ScheduleState, env: Env) returns (steps: seq<Step>)
    ensures DoAll(db, steps) == Apply(db, SetSchedule(id, to, env)) && AllPartOf(steps, SetSchedule(id, to, env))
  {
    hide DoAll;
    steps := ScheduleStep(db, ChangeState(db, id, to, env).0);
  }

  lemma TickIsSteps(db: Db, cfg: T.Config, now: Instant, turns: nat -> Turn) returns (steps: seq<Step>)
    ensures var c := TickCall(cfg, now, turns);
            DoAll(db, steps) == Apply(db, c) && AllPartOf(steps, c) && TurnsInOrder(steps, c)
  {
    hide RunAll, DoAll, AllPartOf, InTurn, Due;
    DueInRange(db.schedules, now.date);
    var at: seq<nat>;
    steps, at := RunAllIsSteps(db, cfg, Due(db.schedules, now.date), turns, 0, TickCall(cfg, now, turns));
  }

  lemma ScheduleStep(db: Db, db': Db) returns (steps: seq<Step>)
    requires db' == db.(schedules := db'.schedules)
    ensures DoAll(db, steps) == db' && steps == [SaveSchedules(db'.schedules)]
  {
    OneStep(db, SaveSchedules(db'.schedules));
    steps := [SaveSchedules(db'.schedules)];
  }
}
