/**
 The tables of the store and their rows (crates/core/src/domain/invoice.rs, creditnote.rs,
 schedule.rs; crates/store/migrations/sqlite).

 An invoice, customer, credit note, schedule or history id is the row's position in its table:
 rows are only ever appended or updated in place, so positions serve as fresh, stable ids.
 */
module Tables {
  import opened Wrappers
  import opened Calendar
  import opened Money
  import opened Lifecycle
  import opened Cadences
  import T = Tax

  datatype Line = Line(description: string, quantity: real, unitPrice: real, category: T.Category,
                       taxIds: seq<string>, taxAmount: real, lineTotal: real)

  datatype Invoice = Invoice(number: Option<string>, customer: nat, seller: T.Jurisdiction, currency: Currency,
                             state: State, issuedAt: Option<Instant>, sentAt: Option<Instant>,
                             viewedAt: Option<Instant>, paidAt: Option<Instant>, voidedAt: Option<Instant>,
                             subtotal: real, taxTotal: real, total: real, amountPaid: real,
                             schedule: Option<nat>, key: Option<string>, review: bool)

  /** A row of `invoice_state_history`; `amount` and `destination` are its metadata entries. */
  datatype Row = Row(invoice: nat, from: Option<State>, to: State, event: string, occurredAt: Instant,
                     amount: Option<real>, destination: Option<string>, busEvent: Option<string>)

  datatype SendRecord = SendRecord(historyId: nat, deliveredTo: string)

  datatype CreditState = CreditDraft | CreditIssued

  datatype CreditNote = CreditNote(number: Option<string>, invoice: nat, state: CreditState, amount: real,
                                   currency: Currency, refundRef: Option<string>, issuedAt: Option<Instant>)

  datatype CreditRow = CreditRow(note: nat, from: Option<CreditState>, to: CreditState, event: string,
                                 occurredAt: Instant, busEvent: Option<string>)

  datatype DraftLine = DraftLine(description: string, quantity: real, unitPrice: real, category: T.Category)

  datatype ScheduleState = Active | Paused | Cancelled

  datatype Schedule = Schedule(customer: nat, lines: seq<DraftLine>, currency: Currency, cadence: Recurrence,
                               start: Day, end: Option<Day>, autoIssue: bool, nextRun: Day,
                               lastRun: Option<Day>, state: ScheduleState)

  /** One message the publisher accepted. */
  datatype Message =
    | InvoiceProposed(invoice: nat, from: State, to: State, event: Event, occurredAt: Instant)
    | InvoiceTransitioned(invoice: nat, from: State, to: State, event: Event, occurredAt: Instant)
    | InvoiceEntered(invoice: nat, to: State, occurredAt: Instant)
    | InvoiceDomain(topic: string, invoice: nat, fromState: Option<State>, to: State, tag: string,
                    occurredAt: Instant)
    | CreditProposed(note: nat, cfrom: CreditState, cto: CreditState, occurredAt: Instant)
    | CreditTransitioned(note: nat, cfrom: CreditState, cto: CreditState, occurredAt: Instant)
    | CreditEntered(note: nat, cto: CreditState, occurredAt: Instant)
    | CreditDomain(topic: string, note: nat, cfromState: Option<CreditState>, cto: CreditState, tag: string,
                   occurredAt: Instant)

  /**
   `published` and `creditPublished` hold the history ids whose `published_at` is set, and `inbox`
   maps each received event id to whether it was marked processed. `bus` is not a table: it is what
   the publisher has accepted so far.
   */
  datatype Db = Db(customers: seq<T.Address>, invoices: seq<Invoice>, lines: map<nat, seq<Line>>,
                   history: seq<Row>, published: set<nat>, sends: map<(nat, string), SendRecord>,
                   creditNotes: seq<CreditNote>, creditHistory: seq<CreditRow>, creditPublished: set<nat>,
                   inbox: map<string, bool>, schedules: seq<Schedule>, bus: seq<Message>)

  const EMPTY: Db := Db([], [], map[], [], {}, map[], [], [], {}, map[], [], [])

  /** `list_for_invoice`: no rows for an unknown invoice. */
  function LinesOf(db: Db, id: nat): seq<Line> {
    if id in db.lines then db.lines[id] else []
  }

  /** The history of one invoice, in insertion order. */
  function RowsOf(history: seq<Row>, id: nat): (rows: seq<Row>)
    ensures forall r :: r in rows ==> r in history && r.invoice == id
  {
    if history == [] then []
    else
      var n := |history| - 1;
      RowsOf(history[..n], id) + (if history[n].invoice == id then [history[n]] else [])
  }

  /** The first invoice with this key at or after position `i`: the UNIQUE index on `idempotency_key`. */
  function FindKey(invoices: seq<Invoice>, key: string, i: nat := 0): (r: Option<nat>)
    requires i <= |invoices|
    ensures r.Some? ==> i <= r.value < |invoices| && invoices[r.value].key == Some(key)
    ensures r.None? ==> forall j :: i <= j < |invoices| ==> invoices[j].key != Some(key)
    decreases |invoices| - i
  {
    if i == |invoices| then None
    else if invoices[i].key == Some(key) then Some(i)
    else FindKey(invoices, key, i + 1)
  }

  lemma RowsOfAppend(history: seq<Row>, row: Row, id: nat)
    ensures row.invoice == id ==> RowsOf(history + [row], id) == RowsOf(history, id) + [row]
    ensures row.invoice != id ==> RowsOf(history + [row], id) == RowsOf(history, id)
  {
    assert (history + [row])[..|history|] == history;
  }

  lemma {:induction false} NoRowsOfStrangers(history: seq<Row>, id: nat)
    requires forall r :: r in history ==> r.invoice != id
    ensures RowsOf(history, id) == []
  {
    if history != [] {
      var n := |history| - 1;
      assert history[n] in history;
      NoRowsOfStrangers(history[..n], id);
    }
  }
}
