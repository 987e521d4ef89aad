/**
 Bus deliveries among all the other calls of a run (crates/bus/src/inbox.rs, consumer.rs): a repeat is
 idle wherever it stands, an event is processed at most once, and its payment is on record at most once.
 */
module InboxRuns {
  import opened Wrappers
  import opened Tables
  import opened Ledger
  import opened Inbox
  import opened Runs
  import opened Safety
  import Calendar
  import Outbox
  import Scheduler

  // ---------------------------------------------------------------------------
  // Repeats
  // ---------------------------------------------------------------------------

  /** The run without the deliveries whose event was already accepted. */
  function DropRepeats(seen: set<string>, calls: seq<Call>): seq<Call>
    decreases |calls|
  {
    if calls == [] then []
    else
      match calls[0]
      case Deliver(d) =>
        if d.eventId in seen then DropRepeats(seen, calls[1..])
        else [calls[0]] + DropRepeats(seen + (if d.inserts then {d.eventId} else {}), calls[1..])
      case _ => [calls[0]] + DropRepeats(seen, calls[1..])
  }

  lemma CallKeepsInv(db: Db, c: Call)
    requires Inv(db)
    ensures Inv(Apply(db, c)) && db.inbox.Keys <= Apply(db, c).inbox.Keys
  {
    hide Inv, Apply, DoAll;
    var steps := CallIsSteps(db, c);
    DoAllKeeps(db, steps);
  }

  lemma RunAfterHead(db: Db, c: Call, rest: seq<Call>)
    ensures RunCalls(db, [c] + rest) == RunCalls(Apply(db, c), rest)
  {
    hide Apply;
    assert ([c] + rest)[1..] == rest;
  }

  /** Dropping every repeated delivery from a run, whatever stands between, changes no table. */
  lemma {:induction false} RepeatsAreIdle(db: Db, seen: set<string>, calls: seq<Call>)
    requires Inv(db) && seen <= db.inbox.Keys
    ensures RunCalls(db, calls) == RunCalls(db, DropRepeats(seen, calls))
    decreases |calls|, 1
  {
    hide Inv, Apply, RunCalls, Receive;
    if calls != [] {
      var c, rest := calls[0], calls[1..];
      assert calls == [c] + rest;
      RunAfterHead(db, c, rest);
      CallKeepsInv(db, c);
      if c.Deliver? {
        RepeatsAreIdleAfter(db, seen, c.delivery, rest);
      } else {
        RepeatsAreIdle(Apply(db, c), seen, rest);
        RunAfterHead(db, c, DropRepeats(seen, rest));
      }
    }
  }

  lemma {:induction false} RepeatsAreIdleAfter(db: Db, seen: set<string>, d: Delivery, rest: seq<Call>)
    requires Inv(db) && seen <= db.inbox.Keys
    ensures RunCalls(Apply(db, Deliver(d)), rest) == RunCalls(db, DropRepeats(seen, [Deliver(d)] + rest))
    decreases |rest| + 1, 0
  {
    hide Inv, RunCalls, Receive;
    assert ([Deliver(d)] + rest)[1..] == rest;
    CallKeepsInv(db, Deliver(d));
    if d.eventId in seen {
      RepeatIsIdle(db, d);
      RepeatsAreIdle(db, seen, rest);
    } else {
      var more := seen + (if d.inserts then {d.eventId} else {});
      ReceiveRemembers(db, d);
      RepeatsAreIdle(Receive(db, d), more, rest);
      RunAfterHead(db, Deliver(d), DropRepeats(more, rest));
    }
  }

  // ---------------------------------------------------------------------------
  // When an event is processed
  // ---------------------------------------------------------------------------

  /** Only a delivery writes the inbox. */
  lemma InboxOfStep(db: Db, s: Step)
    requires !s.SaveInbox?
    ensures Do(db, s).inbox == db.inbox
  {
    hide DraftInvoice, IssueInvoice, SendInvoice, MarkPaid, Outbox.Relay;
    match s {
      case DraftStep(input, env) => Scheduler.DraftFrame(db, input, env);
      case IssueStep(cfg, id, env) => Scheduler.IssueFrame(db, cfg, id, env);
      case SendStep(id, uri, key, path, env) => SendLeavesInbox(db, id, uri, key, path, env);
      case PayStep(id, amount, receivedAt, busEvent, env) => PayLeavesInbox(db, id, amount, receivedAt, busEvent, env);
      case RelayStep(limit, faults) => RelayOnlyAdds(db, limit, faults);
      case IssueCreditStep(note, env) => IssueCreditTouchesOnlyCredit(db, note, env);
      case _ =>
    }
  }

  lemma SendLeavesInbox(db: Db, id: nat, uri: string, key: Option<string>, path: SendPath, env: Env)
    ensures SendInvoice(db, id, uri, key, path, env).0.inbox == db.inbox
  {
    hide Scheme, LocalDestination, SendTarget;
  }

  lemma PayLeavesInbox(db: Db, id: nat, amount: real, receivedAt: Option<Calendar.Instant>, busEvent: Option<string>,
                       env: Env)
    ensures MarkPaid(db, id, amount, receivedAt, busEvent, env).0.inbox == db.inbox
  {
  }

  lemma {:induction false} InboxOfSteps(db: Db, steps: seq<Step>)
    requires forall i :: 0 <= i < |steps| ==> !steps[i].SaveInbox?
    ensures DoAll(db, steps).inbox == db.inbox
    decreases |steps|
  {
    hide Do;
    if steps != [] {
      InboxOfStep(db, steps[0]);
      InboxOfSteps(Do(db, steps[0]), steps[1..]);
    }
  }

  /** A call that cannot put this event on record, nor touch the inbox by itself. */
  predicate LeavesEvent(c: Call, eventId: string) {
    match c
    case Deliver(d) => d.eventId != eventId || !d.inserts
    case Command(step) => !step.SaveInbox?
    case _ => true
  }

  /** A call that writes the inbox only as a delivery. */
  predicate LeavesInbox(c: Call) {
    c.Command? ==> !c.step.SaveInbox?
  }

  lemma OtherCallLeavesEvent(db: Db, c: Call, eventId: string)
    requires LeavesInbox(c) && (LeavesEvent(c, eventId) || eventId in db.inbox)
    ensures SameEvent(db, Apply(db, c), eventId)
  {
    hide Receive, DoAll, Do;
    if c.Deliver? {
      OtherDeliveryLeavesEvent(db, c.delivery, eventId);
    } else {
      var steps := CallIsSteps(db, c);
      forall i | 0 <= i < |steps|
        ensures !steps[i].SaveInbox?
      {
        assert PartOf(steps[i], c);
      }
      InboxOfSteps(db, steps);
    }
  }

  lemma {:induction false} OtherCallsLeaveEvent(db: Db, calls: seq<Call>, eventId: string)
    requires forall i :: 0 <= i < |calls| ==> LeavesInbox(calls[i])
    requires eventId in db.inbox || forall i :: 0 <= i < |calls| ==> LeavesEvent(calls[i], eventId)
    ensures SameEvent(db, RunCalls(db, calls), eventId)
    decreases |calls|
  {
    hide Apply, LeavesEvent, LeavesInbox;
    if calls != [] {
      OtherCallLeavesEvent(db, calls[0], eventId);
      OtherCallsLeaveEvent(Apply(db, calls[0]), calls[1..], eventId);
    }
  }

  /**
   In any run, a new event ends up processed exactly when the receiver of its first accepted delivery
   survives and its command succeeds on the store of that moment, whatever comes before and after.
   */
  lemma EventIsProcessedExactly(db: Db, before: seq<Call>, d: Delivery, after: seq<Call>)
    requires d.eventId !in db.inbox && d.inserts
    requires forall i :: 0 <= i < |before| ==> LeavesInbox(before[i]) && LeavesEvent(before[i], d.eventId)
    requires forall i :: 0 <= i < |after| ==> LeavesInbox(after[i])
    ensures var at := RunCalls(db, before);
            Processed(RunCalls(db, before + ([Deliver(d)] + after)), d.eventId)
            <==> d.survives && Dispatch(Accepted(at, d), d).1
  {
    hide RunCalls, Receive, Dispatch, LeavesEvent, LeavesInbox;
    var at := RunCalls(db, before);
    OtherCallsLeaveEvent(db, before, d.eventId);
    ProcessedExactly(at, d, d);
    ReceiveRemembers(at, d);
    OtherCallsLeaveEvent(Receive(at, d), after, d.eventId);
    RunCallsAppend(db, before, [Deliver(d)] + after);
    RunAfterHead(at, Deliver(d), after);
  }

  // ---------------------------------------------------------------------------
  // Payments on record
  // ---------------------------------------------------------------------------

  /** How many history rows carry this bus event id. */
  function Carrying(history: seq<Row>, eventId: string): nat {
    if history == [] then 0
    else
      Carrying(history[..|history| - 1], eventId)
      + (if history[|history| - 1].busEvent == Some(eventId) then 1 else 0)
  }

  lemma CarryingAppend(history: seq<Row>, r: Row, eventId: string)
    ensures Carrying(history + [r], eventId) == Carrying(history, eventId) + (if r.busEvent == Some(eventId) then 1 else 0)
  {
    assert (history + [r])[..|history|] == history;
  }

  /** A payment that commits under this bus event id. */
  predicate PaysUnder(db: Db, s: Step, eventId: string) {
    && s.PayStep? && s.busEvent == Some(eventId)
    && MarkPaid(db, s.id, s.amount, s.receivedAt, s.busEvent, s.env).1.Success?
  }

  /** The history is the same, or has one more row that carries no bus event. */
  predicate NoBusRow(a: seq<Row>, b: seq<Row>) {
    b == a || (|b| == |a| + 1 && b[..|a|] == a && b[|a|].busEvent == None)
  }

  lemma NoBusRowCarries(a: seq<Row>, b: seq<Row>, eventId: string)
    requires NoBusRow(a, b)
    ensures Carrying(b, eventId) == Carrying(a, eventId)
  {
    if b != a {
      assert b == a + [b[|a|]];
      CarryingAppend(a, b[|a|], eventId);
    }
  }

  /** Only a payment writes a bus event id. */
  lemma StepWritesNoBusRow(db: Db, s: Step)
    requires !s.PayStep?
    ensures NoBusRow(db.history, Do(db, s).history)
  {
    hide DraftInvoice, IssueInvoice, SendInvoice, Outbox.Relay;
    match s {
      case DraftStep(input, env) => DraftWritesNoBusRow(db, input, env);
      case IssueStep(cfg, id, env) => IssueWritesNoBusRow(db, s);
      case SendStep(id, uri, key, path, env) => SendWritesNoBusRow(db, id, uri, key, path, env);
      case RelayStep(limit, faults) => RelayOnlyAdds(db, limit, faults);
      case IssueCreditStep(note, env) => IssueCreditTouchesOnlyCredit(db, note, env);
      case _ =>
    }
  }

  lemma DraftWritesNoBusRow(db: Db, input: DraftInput, env: Env)
    ensures NoBusRow(db.history, DraftInvoice(db, input, env).0.history)
  {
    hide ValidDraft, DraftedLines, DraftedInvoice;
  }

  lemma IssueWritesNoBusRow(db: Db, s: Step)
    requires s.IssueStep?
    ensures NoBusRow(db.history, IssueInvoice(db, s.cfg, s.id, s.env).0.history)
  {
    hide TaxedLines, IssuedInvoice;
  }

  lemma SendWritesNoBusRow(db: Db, id: nat, uri: string, key: Option<string>, path: SendPath, env: Env)
    ensures NoBusRow(db.history, SendInvoice(db, id, uri, key, path, env).0.history)
  {
    hide Scheme, LocalDestination, SendTarget;
  }

  lemma PaymentCarries(db: Db, s: Step, eventId: string)
    requires s.PayStep?
    ensures Carrying(Do(db, s).history, eventId)
         == Carrying(db.history, eventId) + (if PaysUnder(db, s, eventId) then 1 else 0)
  {
    hide Carrying;
    var (db', r) := MarkPaid(db, s.id, s.amount, s.receivedAt, s.busEvent, s.env);
    if r.Success? {
      CarryingAppend(db.history, db'.history[|db.history|], eventId);
    }
  }

  lemma {:induction false} StepsWriteNoBusRow(db: Db, steps: seq<Step>, eventId: string)
    requires forall i :: 0 <= i < |steps| ==> !steps[i].PayStep?
    ensures Carrying(DoAll(db, steps).history, eventId) == Carrying(db.history, eventId)
    decreases |steps|
  {
    hide Do, Carrying;
    if steps != [] {
      StepWritesNoBusRow(db, steps[0]);
      NoBusRowCarries(db.history, Do(db, steps[0]).history, eventId);
      StepsWriteNoBusRow(Do(db, steps[0]), steps[1..], eventId);
    }
  }

  /** A delivery that is accepted now and whose payment commits. */
  predicate DeliveryPays(db: Db, d: Delivery, eventId: string) {
    && d.eventId == eventId && eventId !in db.inbox && d.inserts && d.survives
    && d.payload.PaymentReceived? && Dispatch(Accepted(db, d), d).1
  }

  /** The rows one call adds under this event id: a payment entered by hand, or the delivery itself. */
  function ByHand(db: Db, c: Call, eventId: string): nat {
    if c.Command? && PaysUnder(db, c.step, eventId) then 1 else 0
  }

  function ByBus(db: Db, c: Call, eventId: string): nat {
    if c.Deliver? && DeliveryPays(db, c.delivery, eventId) then 1 else 0
  }

  lemma DispatchCarries(db: Db, d: Delivery, eventId: string)
    ensures Carrying(Dispatch(db, d).0.history, eventId) == Carrying(db.history, eventId)
            + (if d.eventId == eventId && d.payload.PaymentReceived? && Dispatch(db, d).1 then 1 else 0)
  {
    hide Carrying, DraftInvoice, MarkPaid;
    match d.payload {
      case ChargeCreated(customer, _, _, _, _) =>
        if customer.Some? {
          DraftWritesNoBusRow(db, ChargeInput(d), d.env);
          NoBusRowCarries(db.history, Dispatch(db, d).0.history, eventId);
        }
      case PaymentReceived(ref, amount, receivedAt) =>
        if ref.Some? {
          PaymentCarries(db, PayStep(ref.value, amount, Some(receivedAt), Some(d.eventId), d.env), eventId);
        }
      case PaymentRefunded(_, _, _) =>
      case Unroutable =>
    }
  }

  lemma DeliveryCarries(db: Db, d: Delivery, eventId: string)
    ensures Carrying(Receive(db, d).history, eventId) == Carrying(db.history, eventId) + ByBus(db, Deliver(d), eventId)
  {
    hide Carrying, Dispatch;
    if d.eventId !in db.inbox && d.inserts && d.survives {
      DispatchCarries(Accepted(db, d), d, eventId);
    }
  }

  lemma CallCarries(db: Db, c: Call, eventId: string)
    ensures Carrying(Apply(db, c).history, eventId)
         == Carrying(db.history, eventId) + ByHand(db, c, eventId) + ByBus(db, c, eventId)
  {
    hide Carrying, Receive, DoAll, Do, PaysUnder, DeliveryPays;
    if c.Deliver? {
      DeliveryCarries(db, c.delivery, eventId);
    } else if c.Command? && c.step.PayStep? {
      PaymentCarries(db, c.step, eventId);
    } else {
      var steps := CallIsSteps(db, c);
      forall i | 0 <= i < |steps|
        ensures !steps[i].PayStep?
      {
        assert PartOf(steps[i], c);
      }
      StepsWriteNoBusRow(db, steps, eventId);
      NotByHand(db, c, eventId);
    }
  }

  lemma NotByHand(db: Db, c: Call, eventId: string)
    requires c.Command? ==> !c.step.PayStep?
    ensures ByHand(db, c, eventId) == 0
  {
  }

  function ByHandIn(db: Db, calls: seq<Call>, eventId: string): nat
    decreases |calls|
  {
    if calls == [] then 0 else ByHand(db, calls[0], eventId) + ByHandIn(Apply(db, calls[0]), calls[1..], eventId)
  }

  function ByBusIn(db: Db, calls: seq<Call>, eventId: string): nat
    decreases |calls|
  {
    if calls == [] then 0 else ByBus(db, calls[0], eventId) + ByBusIn(Apply(db, calls[0]), calls[1..], eventId)
  }

  /**
   Over any run the rows that carry an event id are those before it, one for each payment entered by
   hand under that id, and one for the delivery that paid: there is at most one such delivery, and
   none once the event is on record.
   */
  lemma {:induction false} OnePaymentPerEvent(db: Db, calls: seq<Call>, eventId: string)
    requires Inv(db)
    ensures Carrying(RunCalls(db, calls).history, eventId)
         == Carrying(db.history, eventId) + ByHandIn(db, calls, eventId) + ByBusIn(db, calls, eventId)
    ensures ByBusIn(db, calls, eventId) <= if eventId in db.inbox then 0 else 1
    decreases |calls|
  {
    hide Carrying, Inv, Apply, ByHand, DeliveryPays;
    if calls != [] {
      CallCarries(db, calls[0], eventId);
      CallKeepsInv(db, calls[0]);
      if calls[0].Deliver? && DeliveryPays(db, calls[0].delivery, eventId) {
        AcceptedIsOnRecord(db, calls[0], eventId);
      }
      OnePaymentPerEvent(Apply(db, calls[0]), calls[1..], eventId);
    }
  }

  lemma AcceptedIsOnRecord(db: Db, c: Call, eventId: string)
    requires c.Deliver? && DeliveryPays(db, c.delivery, eventId)
    ensures eventId in Apply(db, c).inbox && eventId !in db.inbox
  {
    hide Receive, Dispatch;
    ReceiveRemembers(db, c.delivery);
  }
}
