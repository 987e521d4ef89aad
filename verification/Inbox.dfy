/**
 Inbound bus events: de-duplication on the event id, then dispatch to a command
 (crates/bus/src/inbox.rs, consumer.rs, crates/store/src/repo/bus_inbox.rs).
 */
module Inbox {
  import opened Wrappers
  import opened Calendar
  import opened Lifecycle
  import opened Tables
  import opened Ledger
  import opened Money
  import T = Tax

  /**
   The decoded payload. A missing or malformed reference is `None`; a topic or body the consumer
   cannot route is `Unroutable`.
   */
  datatype Payload =
    | ChargeCreated(customer: Option<nat>, seller: Option<T.Jurisdiction>, currency: Currency,
                    lines: seq<DraftLine>, key: Option<string>)
    | PaymentReceived(invoiceRef: Option<nat>, amount: real, receivedAt: Instant)
    | PaymentRefunded(refundedRef: Option<nat>, refund: real, refundId: Option<string>)
    | Unroutable

  /** One delivery: the event, and whether the receiver survives the gap after the inbox insert. */
  datatype Delivery = Delivery(eventId: string, payload: Payload, inserts: bool, survives: bool, env: Env)

  function ChargeInput(d: Delivery): DraftInput
    requires d.payload.ChargeCreated? && d.payload.customer.Some?
  {
    var p := d.payload;
    DraftInput(p.customer.value,
               if p.seller.Some? then p.seller.value else T.QuebecCa,
               p.currency, p.lines,
               Some(if p.key.Some? then p.key.value else d.eventId), None)
  }

  /** `Consumer::dispatch`: whether the command succeeded, and the tables after it. */
  function Dispatch(db: Db, d: Delivery): (Db, bool) {
    match d.payload
    case ChargeCreated(customer, _, _, _, _) =>
      if customer.None? then (db, false)
      else
        var (db', r) := DraftInvoice(db, ChargeInput(d), d.env);
        (db', r.Success?)
    case PaymentReceived(ref, amount, receivedAt) =>
      if ref.None? then (db, false)
      else
        var (db', r) := MarkPaid(db, ref.value, amount, Some(receivedAt), Some(d.eventId), d.env);
        (db', r.Success?)
    case PaymentRefunded(ref, refund, refundId) =>
      if ref.None? then (db, false)
      else
        var (db', r) := CreateCreditNote(db, ref.value, refund,
                                         Some(if refundId.Some? then refundId.value else d.eventId), d.env);
        (db', r.Success?)
    case Unroutable => (db, false)
  }

  /** Insert into the inbox or skip, dispatch what is new, and mark what succeeded. */
  function Receive(db: Db, d: Delivery): Db {
    if d.eventId in db.inbox || !d.inserts then db
    else
      var received := db.(inbox := db.inbox[d.eventId := false]);
      if !d.survives then received
      else
        var (db', ok) := Dispatch(received, d);
        if ok then db'.(inbox := db'.inbox[d.eventId := true]) else db'
  }

  function ReceiveAll(db: Db, ds: seq<Delivery>): Db
    decreases |ds|
  {
    if ds == [] then db else ReceiveAll(Receive(db, ds[0]), ds[1..])
  }

  /** The sequence without the deliveries whose event was already accepted. */
  function WithoutRepeats(seen: set<string>, ds: seq<Delivery>): seq<Delivery>
    decreases |ds|
  {
    if ds == [] then []
    else if ds[0].eventId in seen then WithoutRepeats(seen, ds[1..])
    else [ds[0]] + WithoutRepeats(seen + (if ds[0].inserts then {ds[0].eventId} else {}), ds[1..])
  }

  lemma DispatchKeepsInbox(db: Db, d: Delivery)
    ensures Dispatch(db, d).0.inbox == db.inbox
  {
  }

  lemma ReceiveRemembers(db: Db, d: Delivery)
    ensures Receive(db, d).inbox.Keys == db.inbox.Keys + (if d.inserts then {d.eventId} else {})
  {
    DispatchKeepsInbox(db.(inbox := db.inbox[d.eventId := false]), d);
  }

  /**
   Repeating deliveries changes nothing: every table ends as if later repeats had never arrived,
   whatever the repeats carry and whichever commands failed.
   */
  lemma {:induction false} RepeatsAreIgnored(db: Db, ds: seq<Delivery>)
    ensures ReceiveAll(db, ds) == ReceiveAll(db, WithoutRepeats(db.inbox.Keys, ds))
    decreases |ds|
  {
    hide Receive;
    if ds != [] {
      var d, db' := ds[0], Receive(db, ds[0]);
      ReceiveRemembers(db, d);
      if d.eventId in db.inbox.Keys {
        RepeatIsIdle(db, d);
        RepeatsAreIgnored(db, ds[1..]);
      } else {
        RepeatsAreIgnored(db', ds[1..]);
        var rest := WithoutRepeats(db'.inbox.Keys, ds[1..]);
        assert WithoutRepeats(db.inbox.Keys, ds) == [d] + rest;
        assert ([d] + rest)[1..] == rest;
      }
    }
  }

  lemma RepeatIsIdle(db: Db, d: Delivery)
    requires d.eventId in db.inbox
    ensures Receive(db, d) == db
  {
  }

  /** The store as dispatch sees it: the event is on record and not yet processed. */
  function Accepted(db: Db, d: Delivery): Db {
    db.(inbox := db.inbox[d.eventId := false])
  }

  predicate Processed(db: Db, eventId: string) {
    eventId in db.inbox && db.inbox[eventId]
  }

  /**
   An accepted event ends up processed exactly when its receiver survives the gap after the insert and
   its command succeeds then. Redelivery neither recovers nor undoes anything.
   */
  lemma ProcessedExactly(db: Db, d: Delivery, again: Delivery)
    requires d.eventId !in db.inbox && d.inserts && again.eventId == d.eventId
    ensures Receive(Receive(db, d), again) == Receive(db, d)
    ensures Processed(Receive(db, d), d.eventId) <==> d.survives && Dispatch(Accepted(db, d), d).1
    ensures !d.survives ==> Receive(db, d) == Accepted(db, d)
  {
    hide Dispatch;
    DispatchKeepsInbox(Accepted(db, d), d);
  }

  /** Nothing in the inbox about this event differs. */
  predicate SameEvent(a: Db, b: Db, eventId: string) {
    (eventId in a.inbox <==> eventId in b.inbox) && (eventId in a.inbox ==> a.inbox[eventId] == b.inbox[eventId])
  }

  lemma OtherDeliveryLeavesEvent(db: Db, d: Delivery, eventId: string)
    requires d.eventId != eventId || !d.inserts || eventId in db.inbox
    ensures SameEvent(db, Receive(db, d), eventId)
  {
    hide Dispatch;
    DispatchKeepsInbox(Accepted(db, d), d);
  }

  /** None of these deliveries is the one that puts the event on record. */
  predicate NotAccepting(db: Db, ds: seq<Delivery>, eventId: string) {
    eventId in db.inbox || forall i :: 0 <= i < |ds| && ds[i].eventId == eventId ==> !ds[i].inserts
  }

  lemma {:induction false} OtherDeliveriesLeaveEvent(db: Db, ds: seq<Delivery>, eventId: string)
    requires NotAccepting(db, ds, eventId)
    ensures SameEvent(db, ReceiveAll(db, ds), eventId)
    decreases |ds|
  {
    hide Receive;
    if ds != [] {
      OtherDeliveryLeavesEvent(db, ds[0], eventId);
      OtherDeliveriesLeaveEvent(Receive(db, ds[0]), ds[1..], eventId);
    }
  }

  lemma {:induction false} ReceiveAllAppend(db: Db, a: seq<Delivery>, b: seq<Delivery>)
    ensures ReceiveAll(db, a + b) == ReceiveAll(ReceiveAll(db, a), b)
    decreases |a|
  {
    hide Receive;
    if a == [] {
      assert a + b == b;
    } else {
      assert (a + b)[1..] == a[1..] + b && (a + b)[0] == a[0];
      ReceiveAllAppend(Receive(db, a[0]), a[1..], b);
    }
  }

  /** In any delivery sequence it is the first accepted delivery that decides. */
  lemma FirstAcceptedDecides(db: Db, before: seq<Delivery>, d: Delivery, after: seq<Delivery>)
    requires d.eventId !in db.inbox && d.inserts && NotAccepting(db, before, d.eventId)
    ensures var at := ReceiveAll(db, before);
            Processed(ReceiveAll(db, before + [d] + after), d.eventId)
            <==> d.survives && Dispatch(Accepted(at, d), d).1
  {
    hide Receive, Dispatch, ReceiveAll;
    var at := ReceiveAll(db, before);
    OtherDeliveriesLeaveEvent(db, before, d.eventId);
    ProcessedExactly(at, d, d);
    ReceiveRemembers(at, d);
    OtherDeliveriesLeaveEvent(Receive(at, d), after, d.eventId);
    assert before + [d] + after == before + ([d] + after);
    ReceiveAllAppend(db, before, [d] + after);
    ReceiveAllAppend(at, [d], after);
    OneDelivery(at, d);
  }

  lemma OneDelivery(db: Db, d: Delivery)
    ensures ReceiveAll(db, [d]) == Receive(db, d)
  {
    hide Receive;
    assert [d][1..] == [];
    assert ReceiveAll(Receive(db, d), []) == Receive(db, d);
  }

  // ---------------------------------------------------------------------------
  // Payments by bus
  // ---------------------------------------------------------------------------

  /** The amounts on pay rows that carry a bus event id, over all invoices. */
  function BusPaid(history: seq<Row>): real {
    if history == [] then 0.0
    else
      var r := history[|history| - 1];
      BusPaid(history[..|history| - 1])
      + (if r.event == "pay" && r.busEvent.Some? && r.amount.Some? then r.amount.value else 0.0)
  }

  /** What a delivery pays when it is accepted: nothing unless the payment command commits. */
  function Pays(db: Db, d: Delivery): real {
    if d.eventId in db.inbox || !d.inserts || !d.survives || !d.payload.PaymentReceived? || d.payload.invoiceRef.None? then 0.0
    else if MarkPaid(db, d.payload.invoiceRef.value, d.payload.amount, Some(d.payload.receivedAt),
                     Some(d.eventId), d.env).1.Success? then d.payload.amount
    else 0.0
  }

  function PaysAll(db: Db, ds: seq<Delivery>): real
    decreases |ds|
  {
    if ds == [] then 0.0 else Pays(db, ds[0]) + PaysAll(Receive(db, ds[0]), ds[1..])
  }

  lemma BusPaidAppend(history: seq<Row>, r: Row)
    ensures BusPaid(history + [r])
         == BusPaid(history) + (if r.event == "pay" && r.busEvent.Some? && r.amount.Some? then r.amount.value else 0.0)
  {
    assert (history + [r])[..|history|] == history;
  }

  /** What dispatching one payload adds. */
  function Settles(db: Db, d: Delivery): real {
    if d.payload.PaymentReceived? && d.payload.invoiceRef.Some? && Dispatch(db, d).1 then d.payload.amount else 0.0
  }

  lemma DispatchPays(db: Db, d: Delivery)
    ensures BusPaid(Dispatch(db, d).0.history) == BusPaid(db.history) + Settles(db, d)
  {
    hide BusPaid;
    match d.payload {
      case ChargeCreated(customer, _, _, _, _) =>
        if customer.Some? {
          BusPaidAppend(db.history, DraftRow(|db.invoices|, d.env.now));
        }
      case PaymentReceived(ref, amount, receivedAt) =>
        if ref.Some? && Dispatch(db, d).1 {
          PaymentPays(db, ref.value, amount, receivedAt, d.eventId, d.env);
        }
      case PaymentRefunded(_, _, _) =>
      case Unroutable =>
    }
  }

  lemma PaymentPays(db: Db, id: nat, amount: real, at: Instant, eventId: string, env: Env)
    requires MarkPaid(db, id, amount, Some(at), Some(eventId), env).1.Success?
    ensures BusPaid(MarkPaid(db, id, amount, Some(at), Some(eventId), env).0.history) == BusPaid(db.history) + amount
  {
    hide BusPaid;
    var inv := db.invoices[id];
    var event := Pay(inv.amountPaid + amount, inv.total);
    BusPaidAppend(db.history, PlainRow(id, inv.state, NextState(inv.state, event).value, event, at)
                              .(amount := Some(amount), busEvent := Some(eventId)));
  }

  lemma ReceivePays(db: Db, d: Delivery)
    ensures BusPaid(Receive(db, d).history) == BusPaid(db.history) + Pays(db, d)
  {
    hide BusPaid;
    var received := db.(inbox := db.inbox[d.eventId := false]);
    if d.eventId !in db.inbox && d.inserts && d.survives {
      DispatchPays(received, d);
      if d.payload.PaymentReceived? && d.payload.invoiceRef.Some? {
        PaymentIgnoresInbox(db, received, d);
      }
    }
  }

  lemma PaymentIgnoresInbox(a: Db, b: Db, d: Delivery)
    requires d.payload.PaymentReceived? && d.payload.invoiceRef.Some? && b == a.(inbox := b.inbox)
    ensures var p := d.payload;
            MarkPaid(a, p.invoiceRef.value, p.amount, Some(p.receivedAt), Some(d.eventId), d.env).1
            == MarkPaid(b, p.invoiceRef.value, p.amount, Some(p.receivedAt), Some(d.eventId), d.env).1
  {
  }

  /** The bus payments recorded over a sequence are those of its distinct accepted events, once each. */
  lemma {:induction false} BusPaymentsCountOnce(db: Db, ds: seq<Delivery>)
    ensures BusPaid(ReceiveAll(db, ds).history)
         == BusPaid(db.history) + PaysAll(db, WithoutRepeats(db.inbox.Keys, ds))
    decreases |ds|
  {
    hide Receive, Pays;
    if ds != [] {
      var d, db' := ds[0], Receive(db, ds[0]);
      ReceiveRemembers(db, d);
      ReceivePays(db, d);
      if d.eventId in db.inbox.Keys {
        RepeatIsIdle(db, d);
        BusPaymentsCountOnce(db, ds[1..]);
      } else {
        BusPaymentsCountOnce(db', ds[1..]);
        var rest := WithoutRepeats(db'.inbox.Keys, ds[1..]);
        assert WithoutRepeats(db.inbox.Keys, ds) == [d] + rest;
        assert ([d] + rest)[1..] == rest;
      }
    }
  }
}
