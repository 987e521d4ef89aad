/**
 What each command does to the tables, as a function of the tables before it
 (crates/commands/src/draft.rs, issue.rs, send.rs, pay.rs, void.rs, credit.rs and
 crates/api/src/handlers/view.rs). Commands.dfy runs the commands step by step against these.

 A command either commits one transaction or leaves the tables as they were.
 */
module Ledger {
  import opened Wrappers
  import opened Calendar
  import opened Text
  import opened Money
  import opened Lifecycle
  import opened Tables
  import opened Numbering
  import T = Tax

  /** The outside world during one command: the clock, and whether each foreign step succeeds. */
  datatype Env = Env(now: Instant, renders: bool, delivers: bool, commits: bool)

  datatype Error =
    | Validation
    | NotFound
    | Fsm(cause: TransitionError)
    | TaxFailed(reason: T.TaxError)
    | Render
    | Repo
    | NotImplemented

  const NO_FIGURES: T.Figures := T.Figures(0.0, 0)

  // ---------------------------------------------------------------------------
  // Sums over lines
  // ---------------------------------------------------------------------------

  function Base(l: Line): real {
    T.Times(l.quantity, l.unitPrice)
  }

  /** The sum of the rounded pre-tax line amounts. */
  function Subtotals(c: Currency, lines: seq<Line>): real {
    if lines == [] then 0.0
    else Subtotals(c, lines[..|lines| - 1]) + c.Round(Base(lines[|lines| - 1]))
  }

  function TaxAmounts(lines: seq<Line>): real {
    if lines == [] then 0.0 else TaxAmounts(lines[..|lines| - 1]) + lines[|lines| - 1].taxAmount
  }

  function LineTotals(lines: seq<Line>): real {
    if lines == [] then 0.0 else LineTotals(lines[..|lines| - 1]) + lines[|lines| - 1].lineTotal
  }

  // ---------------------------------------------------------------------------
  // Draft
  // ---------------------------------------------------------------------------

  datatype DraftInput = DraftInput(customer: nat, seller: T.Jurisdiction, currency: Currency,
                                   lines: seq<DraftLine>, key: Option<string>, schedule: Option<nat>)

  datatype DraftOutput = DraftOutput(invoice: nat, replay: bool)

  predicate ValidLine(l: DraftLine) {
    !Blank(l.description) && l.quantity > 0.0 && l.unitPrice >= 0.0
  }

  predicate ValidDraft(input: DraftInput) {
    && input.lines != []
    && (input.currency.code == "USD" || input.currency.code == "CAD" || input.currency.code == "DZD")
    && forall l :: l in input.lines ==> ValidLine(l)
  }

  function DraftedLine(c: Currency, l: DraftLine): Line {
    Line(l.description, l.quantity, l.unitPrice, l.category, [], 0.0, c.Round(T.Times(l.quantity, l.unitPrice)))
  }

  function DraftedLines(c: Currency, lines: seq<DraftLine>): (r: seq<Line>)
    ensures |r| == |lines|
  {
    if lines == [] then [] else DraftedLines(c, lines[..|lines| - 1]) + [DraftedLine(c, lines[|lines| - 1])]
  }

  function DraftedInvoice(input: DraftInput): Invoice {
    var subtotal := input.currency.Round(Subtotals(input.currency, DraftedLines(input.currency, input.lines)));
    Invoice(None, input.customer, input.seller, input.currency, State.Draft, None, None, None, None, None,
            subtotal, 0.0, subtotal, 0.0, input.schedule, input.key, false)
  }

  function DraftRow(id: nat, now: Instant): Row {
    Row(id, None, State.Draft, "draft", now, None, None, None)
  }

  function AddInvoice(db: Db, inv: Invoice, lines: seq<Line>, row: Row): Db {
    db.(invoices := db.invoices + [inv], lines := db.lines[|db.invoices| := lines], history := db.history + [row])
  }

  function Drafted(db: Db, input: DraftInput, now: Instant): Db {
    AddInvoice(db, DraftedInvoice(input), DraftedLines(input.currency, input.lines), DraftRow(|db.invoices|, now))
  }

  /** The invoice an idempotency key already names. */
  function Keyed(db: Db, key: Option<string>): Option<nat> {
    if key.Some? then FindKey(db.invoices, key.value) else None
  }

  function DraftInvoice(db: Db, input: DraftInput, env: Env): (Db, Result<DraftOutput, Error>) {
    if !ValidDraft(input) then (db, Failure(Validation))
    else if Keyed(db, input.key).Some? then (db, Success(DraftOutput(Keyed(db, input.key).value, true)))
    else if input.customer >= |db.customers| || !env.commits then (db, Failure(Repo))
    else (Drafted(db, input, env.now), Success(DraftOutput(|db.invoices|, false)))
  }

  // ---------------------------------------------------------------------------
  // Issue
  // ---------------------------------------------------------------------------

  function LineTax(cfg: T.Config, inv: Invoice, buyer: T.Address, l: Line, now: Instant): real {
    T.TaxOf(cfg, inv.seller, buyer, l.category, Base(l), inv.currency, NO_FIGURES, now.date)
  }

  /** The line with its tax frozen. */
  function TaxedLine(cfg: T.Config, inv: Invoice, buyer: T.Address, l: Line, now: Instant): Line {
    var tax := LineTax(cfg, inv, buyer, l, now);
    l.(taxIds := T.Ids(T.RecordedRows(cfg, inv.seller, buyer, l.category, NO_FIGURES, now.date)),
       taxAmount := tax,
       lineTotal := inv.currency.Round(inv.currency.Round(Base(l)) + tax))
  }

  function TaxedLines(cfg: T.Config, inv: Invoice, buyer: T.Address, lines: seq<Line>, now: Instant): (r: seq<Line>)
    ensures |r| == |lines|
  {
    if lines == [] then []
    else TaxedLines(cfg, inv, buyer, lines[..|lines| - 1], now)
         + [TaxedLine(cfg, inv, buyer, lines[|lines| - 1], now)]
  }

  predicate AnyReview(cfg: T.Config, inv: Invoice, buyer: T.Address, lines: seq<Line>) {
    exists i :: 0 <= i < |lines| && T.NeedsReview(cfg, inv.seller, buyer, lines[i].category, NO_FIGURES)
  }

  /** The number and issue-stamp columns of the invoices table. */
  function InvoiceNumbers(db: Db): (rows: seq<Numbered>)
    ensures |rows| == |db.invoices|
    ensures forall i :: 0 <= i < |rows| ==> rows[i] == Numbered(db.invoices[i].number, db.invoices[i].issuedAt)
  {
    seq(|db.invoices|, i requires 0 <= i < |db.invoices| =>
      Numbered(db.invoices[i].number, db.invoices[i].issuedAt))
  }

  function IssuedInvoice(db: Db, cfg: T.Config, inv: Invoice, buyer: T.Address, lines: seq<Line>, now: Instant): Invoice {
    var c := inv.currency;
    var subtotal := c.Round(Subtotals(c, lines));
    var taxTotal := c.Round(TaxAmounts(TaxedLines(cfg, inv, buyer, lines, now)));
    inv.(state := Issued, number := Some(NextNumber("INV", InvoiceNumbers(db), now)), issuedAt := Some(now),
         subtotal := subtotal, taxTotal := taxTotal, total := c.Round(subtotal + taxTotal),
         review := AnyReview(cfg, inv, buyer, lines))
  }

  /** One row updated in place, and its history row. */
  function Advanced(db: Db, id: nat, inv: Invoice, row: Row): Db
    requires id < |db.invoices|
  {
    db.(invoices := db.invoices[id := inv], history := db.history + [row])
  }

  function PlainRow(id: nat, from: State, to: State, event: Event, now: Instant): Row {
    Row(id, Some(from), to, Tag(event), now, None, None, None)
  }

  function IssuedDb(db: Db, cfg: T.Config, id: nat, buyer: T.Address, now: Instant): Db
    requires id < |db.invoices|
  {
    var inv, lines := db.invoices[id], LinesOf(db, id);
    Advanced(db.(lines := db.lines[id := TaxedLines(cfg, inv, buyer, lines, now)]), id,
             IssuedInvoice(db, cfg, inv, buyer, lines, now),
             PlainRow(id, inv.state, Issued, Issue, now))
  }

  function IssueInvoice(db: Db, cfg: T.Config, id: nat, env: Env): (Db, Result<nat, Error>) {
    if id >= |db.invoices| then (db, Failure(NotFound))
    else
      var inv := db.invoices[id];
      match NextState(inv.state, Issue)
      case Failure(e) => (db, Failure(Fsm(e)))
      case Success(_) =>
        if inv.customer >= |db.customers| then (db, Failure(NotFound))
        else
          var buyer := db.customers[inv.customer];
          if LinesOf(db, id) != [] && buyer.country == "" then
            (db, Failure(TaxFailed(T.InvalidBuyerCountry(buyer.country))))
          else if !env.renders then (db, Failure(Render))
          else if Taken(InvoiceNumbers(db), NextNumber("INV", InvoiceNumbers(db), env.now)) || !env.commits then
            (db, Failure(Repo))
          else (IssuedDb(db, cfg, id, buyer, env.now), Success(id))
  }

  // ---------------------------------------------------------------------------
  // Send
  // ---------------------------------------------------------------------------

  /** `send_invoice` writes to a local sink; `send_invoice_render` leaves delivery to the caller. */
  datatype SendPath = LocalSink | RenderOnly

  datatype SendOutput = SendOutput(invoice: nat, deliveredTo: string, replay: bool)

  function LowerChar(c: char): char {
    if 'A' <= c <= 'Z' then (c as int + 32) as char else c
  }

  function Lower(s: string): string {
    if s == "" then "" else [LowerChar(s[0])] + Lower(s[1..])
  }

  /** The text before the first `://`, or all of it. */
  function Head(uri: string): string {
    if uri == "" || "://" <= uri then "" else [uri[0]] + Head(uri[1..])
  }

  function Scheme(uri: string): string {
    Lower(Head(uri))
  }

  /** Where a local send really wrote. A `file` URI must spell its prefix in lowercase and name a path. */
  function LocalDestination(uri: string): Option<string> {
    if Scheme(uri) == "stdout" then Some("stdout")
    else if "file://" <= uri && |uri| > |"file://"| then Some(uri)
    else None
  }

  /** The state a send leads to, including the resend of a sent invoice. */
  function SendTarget(s: State): Result<State, TransitionError> {
    match s
    case Issued => NextState(s, Send)
    case Viewed => NextState(s, Send)
    case Sent => Success(Sent)
    case _ => Failure(Illegal(s, "send"))
  }

  function SentDb(db: Db, id: nat, to: State, dest: string, key: Option<string>, now: Instant): Db
    requires id < |db.invoices|
  {
    var inv := db.invoices[id];
    var db' := Advanced(db, id, inv.(state := to, sentAt := Some(now)),
                        PlainRow(id, inv.state, to, Send, now).(destination := Some(dest)));
    if key.Some? then db'.(sends := db.sends[(id, key.value) := SendRecord(|db.history|, dest)]) else db'
  }

  /** A key that already sent this invoice answers with the first destination and writes nothing. */
  function Replay(db: Db, id: nat, key: string, env: Env): Result<SendOutput, Error>
    requires (id, key) in db.sends
  {
    if id >= |db.invoices| || db.invoices[id].customer >= |db.customers| then Failure(NotFound)
    else if !env.renders then Failure(Render)
    else Success(SendOutput(id, db.sends[(id, key)].deliveredTo, true))
  }

  function SendFresh(db: Db, id: nat, uri: string, key: Option<string>, path: SendPath, env: Env)
    : (Db, Result<SendOutput, Error>)
  {
    if id >= |db.invoices| then (db, Failure(NotFound))
    else
      match SendTarget(db.invoices[id].state)
      case Failure(e) => (db, Failure(Fsm(e)))
      case Success(to) =>
        if db.invoices[id].customer >= |db.customers| then (db, Failure(NotFound))
        else if !env.renders then (db, Failure(Render))
        else
          var dest := if path == LocalSink then LocalDestination(uri) else Some(uri);
          if dest.None? || (path == LocalSink && !env.delivers) then (db, Failure(Validation))
          else if !env.commits then (db, Failure(Repo))
          else (SentDb(db, id, to, dest.value, key, env.now), Success(SendOutput(id, dest.value, false)))
  }

  function SendInvoice(db: Db, id: nat, uri: string, key: Option<string>, path: SendPath, env: Env)
    : (Db, Result<SendOutput, Error>)
  {
    if Blank(uri) then (db, Failure(Validation))
    else if path == LocalSink && Scheme(uri) in ["bus", "webhook", "link"] then (db, Failure(NotImplemented))
    else if path == LocalSink && Scheme(uri) !in ["file", "stdout"] then (db, Failure(Validation))
    else if key.Some? && (id, key.value) in db.sends then (db, Replay(db, id, key.value, env))
    else SendFresh(db, id, uri, key, path, env)
  }

  // ---------------------------------------------------------------------------
  // View
  // ---------------------------------------------------------------------------

  function ViewInvoice(db: Db, id: nat, env: Env): (Db, Result<nat, Error>) {
    if id >= |db.invoices| || db.invoices[id].customer >= |db.customers| then (db, Failure(NotFound))
    else if !env.renders then (db, Failure(Render))
    else
      var inv := db.invoices[id];
      if inv.state != Sent then (db, Success(id))
      else if !env.commits then (db, Failure(Repo))
      else (Advanced(db, id, inv.(state := Viewed, viewedAt := Some(env.now)),
                     PlainRow(id, Sent, Viewed, View, env.now)), Success(id))
  }

  // ---------------------------------------------------------------------------
  // Pay and void
  // ---------------------------------------------------------------------------

  function PaidDb(db: Db, id: nat, amount: real, to: State, busEvent: Option<string>, at: Instant): Db
    requires id < |db.invoices|
  {
    var inv := db.invoices[id];
    var paid := inv.amountPaid + amount;
    Advanced(db, id,
             inv.(amountPaid := paid, state := to, paidAt := if to == Paid then Some(at) else inv.paidAt),
             PlainRow(id, inv.state, to, Pay(paid, inv.total), at).(amount := Some(amount), busEvent := busEvent))
  }

  function MarkPaid(db: Db, id: nat, amount: real, receivedAt: Option<Instant>, busEvent: Option<string>, env: Env)
    : (Db, Result<bool, Error>)
  {
    if amount <= 0.0 then (db, Failure(Validation))
    else if id >= |db.invoices| then (db, Failure(NotFound))
    else
      var inv := db.invoices[id];
      match NextState(inv.state, Pay(inv.amountPaid + amount, inv.total))
      case Failure(e) => (db, Failure(Fsm(e)))
      case Success(to) =>
        if !env.commits then (db, Failure(Repo))
        else
          var at := if receivedAt.Some? then receivedAt.value else env.now;
          (PaidDb(db, id, amount, to, busEvent, at), Success(to == Paid))
  }

  function VoidInvoice(db: Db, id: nat, env: Env): (Db, Result<nat, Error>) {
    if id >= |db.invoices| then (db, Failure(NotFound))
    else
      var inv := db.invoices[id];
      match NextState(inv.state, Void)
      case Failure(e) => (db, Failure(Fsm(e)))
      case Success(to) =>
        if !env.commits then (db, Failure(Repo))
        else (Advanced(db, id, inv.(state := to, voidedAt := Some(env.now)),
                       PlainRow(id, inv.state, to, Void, env.now)), Success(id))
  }

  // ---------------------------------------------------------------------------
  // Credit notes
  // ---------------------------------------------------------------------------

  function CreateCreditNote(db: Db, invoice: nat, amount: real, refundRef: Option<string>, env: Env)
    : (Db, Result<nat, Error>)
  {
    if amount <= 0.0 then (db, Failure(Validation))
    else if invoice >= |db.invoices| then (db, Failure(NotFound))
    else if !env.commits then (db, Failure(Repo))
    else
      var c := db.invoices[invoice].currency;
      var note := CreditNote(None, invoice, CreditDraft, c.Round(amount), c, refundRef, None);
      var row := CreditRow(|db.creditNotes|, None, CreditDraft, "draft", env.now, refundRef);
      (db.(creditNotes := db.creditNotes + [note], creditHistory := db.creditHistory + [row]),
       Success(|db.creditNotes|))
  }

  function CreditNumbers(db: Db): (rows: seq<Numbered>)
    ensures |rows| == |db.creditNotes|
    ensures forall i :: 0 <= i < |rows| ==> rows[i] == Numbered(db.creditNotes[i].number, db.creditNotes[i].issuedAt)
  {
    seq(|db.creditNotes|, i requires 0 <= i < |db.creditNotes| =>
      Numbered(db.creditNotes[i].number, db.creditNotes[i].issuedAt))
  }

  function IssueCreditNote(db: Db, id: nat, env: Env): (Db, Result<nat, Error>) {
    if id >= |db.creditNotes| then (db, Failure(NotFound))
    else if db.creditNotes[id].state != CreditDraft then (db, Failure(Validation))
    else
      var number := NextNumber("CN", CreditNumbers(db), env.now);
      if Taken(CreditNumbers(db), number) || !env.commits then (db, Failure(Repo))
      else
        var note := db.creditNotes[id].(state := CreditIssued, number := Some(number), issuedAt := Some(env.now));
        var row := CreditRow(id, Some(CreditDraft), CreditIssued, "issue", env.now, None);
        (db.(creditNotes := db.creditNotes[id := note], creditHistory := db.creditHistory + [row]), Success(id))
  }
}
