/**
 What each command answers on a sound store, and what it writes: exactly when it succeeds, and the row,
 the stamps and the contents it leaves behind (crates/commands/src, crates/api/src/handlers/view.rs,
 crates/bus/src/consumer.rs). None of these statements goes through the state table.
 */
module Answers {
  import opened Wrappers
  import opened Calendar
  import opened Lifecycle
  import opened Tables
  import opened Ledger
  import opened Invariants
  import opened Inbox
  import opened Numbering
  import opened Outbox
  import opened Safety
  import M = Money
  import T = Tax
  import Text

  /** One invoice row replaced, one history row added, and nothing else touched but what `rest` says. */
  predicate OneRowWritten(db: Db, db': Db, rest: Db, id: nat, row: Row) {
    && id < |db.invoices| && |db'.invoices| == |db.invoices|
    && db' == rest.(invoices := db'.invoices, history := db.history + [row])
    && forall i :: 0 <= i < |db.invoices| && i != id ==> db'.invoices[i] == db.invoices[i]
  }

  // ---------------------------------------------------------------------------
  // Pay, void and view
  // ---------------------------------------------------------------------------

  /** A payment succeeds exactly when it is positive, the invoice is there and open, and the commit goes through. */
  lemma PaymentAnswers(db: Db, id: nat, amount: real, receivedAt: Option<Instant>, busEvent: Option<string>, env: Env)
    requires Inv(db)
    ensures var (db', r) := MarkPaid(db, id, amount, receivedAt, busEvent, env);
            && (r.Success? <==> amount > 0.0 && id < |db.invoices| && Open(db.invoices[id].state) && env.commits)
            && (r.Failure? ==> db' == db)
            && (r.Failure? ==> r.error == (if amount <= 0.0 then Validation
                  else if id >= |db.invoices| then NotFound
                  else if !Open(db.invoices[id].state) then Fsm(Illegal(db.invoices[id].state, "pay"))
                  else Repo))
  {
    hide LedgerOk, KeysUnique, SendsOk, BusOk, NextState;
    if amount > 0.0 && id < |db.invoices| {
      var inv := db.invoices[id];
      PaidIsNotNegative(db, id);
      EdgesExactly(inv.state, Pay(inv.amountPaid + amount, inv.total));
    }
  }

  lemma PaidIsNotNegative(db: Db, id: nat)
    requires Inv(db) && id < |db.invoices|
    ensures db.invoices[id].amountPaid >= 0.0
  {
    hide KeysUnique, SendsOk, BusOk, Chained, StampsMatch, TotalsAddUp;
    assert InvoiceAt(db, id);
  }

  /** What a payment writes: the sum so far, the state it reaches, and a row at the time it was received. */
  lemma PaymentRecords(db: Db, id: nat, amount: real, receivedAt: Option<Instant>, busEvent: Option<string>, env: Env)
    requires Inv(db) && MarkPaid(db, id, amount, receivedAt, busEvent, env).1.Success?
    ensures var (db', r) := MarkPaid(db, id, amount, receivedAt, busEvent, env);
            var inv, paid := db.invoices[id], db.invoices[id].amountPaid + amount;
            var full, at := paid >= inv.total, if receivedAt.Some? then receivedAt.value else env.now;
            var to := if full then Paid else PartiallyPaid;
            && r.value == full
            && OneRowWritten(db, db', db, id, Row(id, Some(inv.state), to, "pay", at, Some(amount), None, busEvent))
            && db'.invoices[id] == inv.(amountPaid := paid, state := to, paidAt := if full then Some(at) else None)
  {
    hide LedgerOk, KeysUnique, SendsOk, BusOk, NextState;
    var inv := db.invoices[id];
    PaymentAnswers(db, id, amount, receivedAt, busEvent, env);
    PaidIsNotNegative(db, id);
    EdgesExactly(inv.state, Pay(inv.amountPaid + amount, inv.total));
    OpenHasNoEnd(db, id);
  }

  lemma OpenHasNoEnd(db: Db, id: nat)
    requires Inv(db) && id < |db.invoices| && Open(db.invoices[id].state)
    ensures db.invoices[id].paidAt == None
  {
    hide KeysUnique, SendsOk, BusOk, Chained, PaidMatchesState, TotalsAddUp;
    assert InvoiceAt(db, id);
  }

  /** A void succeeds exactly when the invoice is there and open, and the commit goes through. */
  lemma VoidAnswers(db: Db, id: nat, env: Env)
    ensures var (db', r) := VoidInvoice(db, id, env);
            && (r.Success? <==> id < |db.invoices| && Open(db.invoices[id].state) && env.commits)
            && (r.Failure? ==> db' == db)
            && (r.Failure? ==> r.error == (if id >= |db.invoices| then NotFound
                  else if !Open(db.invoices[id].state) then Fsm(Illegal(db.invoices[id].state, "void"))
                  else Repo))
            && (r.Success? ==>
                  var inv := db.invoices[id];
                  && r.value == id
                  && OneRowWritten(db, db', db, id, Row(id, Some(inv.state), Voided, "void", env.now, None, None, None))
                  && db'.invoices[id] == inv.(state := Voided, voidedAt := Some(env.now)))
  {
    hide NextState;
    if id < |db.invoices| {
      EdgesExactly(db.invoices[id].state, Void);
    }
  }

  /** A view moves a sent invoice and only that; on every other state it answers and writes nothing. */
  lemma ViewAnswers(db: Db, id: nat, env: Env)
    requires Inv(db)
    ensures var (db', r) := ViewInvoice(db, id, env);
            && (r.Success? <==> id < |db.invoices| && env.renders && (db.invoices[id].state == Sent ==> env.commits))
            && (r.Failure? ==> db' == db)
            && (r.Failure? ==> r.error == (if id >= |db.invoices| then NotFound else if !env.renders then Render else Repo))
            && (r.Success? && db.invoices[id].state != Sent ==> db' == db)
            && (r.Success? && db.invoices[id].state == Sent ==>
                  && OneRowWritten(db, db', db, id, Row(id, Some(Sent), Viewed, "view", env.now, None, None, None))
                  && db'.invoices[id] == db.invoices[id].(state := Viewed, viewedAt := Some(env.now)))
  {
    hide KeysUnique, SendsOk, BusOk, InvoiceOk;
    if id < |db.invoices| {
      assert InvoiceAt(db, id);
    }
  }

  // ---------------------------------------------------------------------------
  // Send
  // ---------------------------------------------------------------------------

  /** A state from which an invoice may be sent or sent again. */
  predicate Sendable(s: State) {
    s == Issued || s == Sent
  }

  /** The scheme is what stands before the first `://`, in lowercase, or the whole text if there is no colon. */
  lemma SchemeExactly(scheme: string, rest: string)
    requires ':' !in scheme
    ensures Scheme(scheme + "://" + rest) == Lower(scheme) && Scheme(scheme) == Lower(scheme)
  {
    HeadExactly(scheme, rest);
  }

  lemma {:induction false} HeadExactly(scheme: string, rest: string)
    requires ':' !in scheme
    ensures Head(scheme + "://" + rest) == scheme && Head(scheme) == scheme
  {
    var uri := scheme + "://" + rest;
    if scheme == "" {
      assert uri == "://" + rest;
    } else {
      assert uri[0] == scheme[0] && uri[1..] == scheme[1..] + "://" + rest;
      assert scheme[0] in scheme;
      HeadExactly(scheme[1..], rest);
      assert scheme == [scheme[0]] + scheme[1..];
    }
  }

  /** Where a fresh send goes: where the caller says, or to stdout or the very file the local sink was given. */
  ghost predicate GoesTo(uri: string, path: SendPath, dest: string) {
    && (path == RenderOnly ==> dest == uri)
    && (path == LocalSink && Scheme(uri) == "stdout" ==> dest == "stdout")
    && (path == LocalSink && Scheme(uri) != "stdout" ==> dest == uri && "file://" <= uri && |uri| > |"file://"|)
  }

  /** The local sink can write there: stdout, or a lowercase `file` URI that names a path. */
  predicate Writable(uri: string, path: SendPath) {
    path == LocalSink ==> Scheme(uri) == "stdout" || ("file://" <= uri && |uri| > |"file://"|)
  }

  /** A send without a recorded key succeeds exactly on an issued or sent invoice with a destination that works. */
  lemma SendAnswers(db: Db, id: nat, uri: string, key: Option<string>, path: SendPath, env: Env)
    requires Inv(db) && !(key.Some? && (id, key.value) in db.sends)
    ensures var (db', r) := SendInvoice(db, id, uri, key, path, env);
            && (r.Success? <==>
                  && WellAddressed(uri, path) && Writable(uri, path) && (path == LocalSink ==> env.delivers)
                  && id < |db.invoices| && Sendable(db.invoices[id].state) && env.renders && env.commits)
            && (r.Failure? ==> db' == db)
            && (r.Failure? ==> r.error == (if Text.Blank(uri) then Validation
                  else if path == LocalSink && Scheme(uri) in ["bus", "webhook", "link"] then NotImplemented
                  else if !WellAddressed(uri, path) then Validation
                  else if id >= |db.invoices| then NotFound
                  else if !Sendable(db.invoices[id].state) then Fsm(Illegal(db.invoices[id].state, "send"))
                  else if !env.renders then Render
                  else if path == LocalSink && !(Writable(uri, path) && env.delivers) then Validation
                  else Repo))
  {
    hide Scheme, Text.Blank, KeysUnique, SendsOk, BusOk, InvoiceOk, SentDb, NextState;
    if id < |db.invoices| {
      assert InvoiceAt(db, id);
      SendTargetExactly(db.invoices[id].state);
    }
  }

  lemma SendTargetExactly(s: State)
    ensures SendTarget(s) == if Sendable(s) then Success(Sent) else Failure(Illegal(s, "send"))
  {
  }

  /** What a fresh send writes: the state, the stamp, the row with the true destination, and the record of its key. */
  lemma SendRecords(db: Db, id: nat, uri: string, key: Option<string>, path: SendPath, env: Env)
    requires Inv(db) && !(key.Some? && (id, key.value) in db.sends)
    requires SendInvoice(db, id, uri, key, path, env).1.Success?
    ensures var (db', r) := SendInvoice(db, id, uri, key, path, env);
            var inv, dest := db.invoices[id], r.value.deliveredTo;
            && r.value == SendOutput(id, dest, false) && GoesTo(uri, path, dest)
            && OneRowWritten(db, db', db.(sends := db'.sends), id,
                             Row(id, Some(inv.state), Sent, "send", env.now, None, Some(dest), None))
            && db'.invoices[id] == inv.(state := Sent, sentAt := Some(env.now))
            && db'.sends == if key.Some? then db.sends[(id, key.value) := SendRecord(|db.history|, dest)] else db.sends
  {
    hide Scheme, Text.Blank, LedgerOk, KeysUnique, SendsOk, BusOk, NextState, SendTarget;
    SendAnswers(db, id, uri, key, path, env);
    SendTargetExactly(db.invoices[id].state);
  }

  // ---------------------------------------------------------------------------
  // Draft
  // ---------------------------------------------------------------------------

  /** The stored lines are the lines asked for, untaxed. */
  predicate Quotes(c: M.Currency, lines: seq<Line>, asked: seq<DraftLine>) {
    && |lines| == |asked|
    && forall i :: 0 <= i < |lines| ==>
         && IsItem(lines[i], asked[i])
         && lines[i].taxIds == [] && lines[i].taxAmount == 0.0
         && lines[i].lineTotal == c.Round(T.Times(asked[i].quantity, asked[i].unitPrice))
  }

  predicate IsItem(l: Line, asked: DraftLine) {
    && l.description == asked.description && l.quantity == asked.quantity
    && l.unitPrice == asked.unitPrice && l.category == asked.category
  }

  lemma {:induction false} DraftedQuotes(c: M.Currency, asked: seq<DraftLine>)
    ensures Quotes(c, DraftedLines(c, asked), asked)
  {
    hide M.Currency.Round, T.Times;
    if asked != [] {
      DraftedQuotes(c, asked[..|asked| - 1]);
    }
  }

  /** A draft is refused as invalid exactly for want of lines, for its currency, or for one bad line. */
  lemma DraftIsRefusedExactly(db: Db, input: DraftInput, env: Env)
    ensures DraftInvoice(db, input, env).1 == Failure(Validation) <==>
              || input.lines == []
              || input.currency.code !in ["USD", "CAD", "DZD"]
              || exists i :: 0 <= i < |input.lines| && IsBadLine(input.lines[i])
  {
    hide DraftedLines, DraftedInvoice, Text.Blank;
    if ValidDraft(input) {
      assert forall i :: 0 <= i < |input.lines| ==> ValidLine(input.lines[i]);
    }
  }

  predicate IsBadLine(l: DraftLine) {
    Text.Blank(l.description) || l.quantity <= 0.0 || l.unitPrice < 0.0
  }

  /** A draft succeeds exactly on a valid input whose key is known or whose customer exists and commit goes through. */
  lemma DraftAnswers(db: Db, input: DraftInput, env: Env)
    ensures var (db', r) := DraftInvoice(db, input, env);
            var known := input.key.Some? && exists i :: 0 <= i < |db.invoices| && db.invoices[i].key == input.key;
            && (r.Success? <==> ValidDraft(input) && (known || (input.customer < |db.customers| && env.commits)))
            && (r.Failure? ==> db' == db)
            && (r.Failure? ==> r.error == (if !ValidDraft(input) then Validation else Repo))
            && (r.Success? && known ==> db' == db && r.value.replay && r.value.invoice < |db.invoices|
                                        && db.invoices[r.value.invoice].key == input.key)
  {
    hide ValidDraft, DraftedLines, DraftedInvoice;
  }

  /** A fresh draft stores what was asked: who, for whom, in what, under which key, and the lines as they were given. */
  lemma DraftRecords(db: Db, input: DraftInput, env: Env)
    requires DraftInvoice(db, input, env).1.Success? && !DraftInvoice(db, input, env).1.value.replay
    ensures var (db', r) := DraftInvoice(db, input, env);
            var id := |db.invoices|;
            && r.value.invoice == id && |db'.invoices| == id + 1 && db'.invoices[..id] == db.invoices
            && db' == db.(invoices := db'.invoices, lines := db.lines[id := LinesOf(db', id)],
                          history := db.history + [Row(id, None, State.Draft, "draft", env.now, None, None, None)])
            && Quotes(input.currency, LinesOf(db', id), input.lines)
            && var inv := db'.invoices[id];
               && inv == Invoice(None, input.customer, input.seller, input.currency, State.Draft, None, None, None,
                                 None, None, inv.subtotal, 0.0, inv.subtotal, 0.0, input.schedule, input.key, false)
               && inv.subtotal == LineTotals(LinesOf(db', id))
  {
    hide ValidDraft, DraftedLines, M.Currency.Round, M.Currency.OnGrid, Subtotals;
    var c, lines := input.currency, DraftedLines(input.currency, input.lines);
    DraftedQuotes(c, input.lines);
    DraftSums(c, input.lines);
    SumsOnGrid(c, lines);
  }

  // ---------------------------------------------------------------------------
  // Issue
  // ---------------------------------------------------------------------------

  /** An issue succeeds exactly on a draft whose buyer has a country, with a free number, a page and a commit. */
  lemma IssueAnswers(db: Db, cfg: T.Config, id: nat, env: Env)
    requires Inv(db)
    ensures var (db', r) := IssueInvoice(db, cfg, id, env);
            && (r.Success? <==>
                  && id < |db.invoices| && db.invoices[id].state == State.Draft
                  && BuyerOf(db, id).country != "" && env.renders && env.commits
                  && !Taken(InvoiceNumbers(db), NextNumber("INV", InvoiceNumbers(db), env.now)))
            && (r.Failure? ==> db' == db)
            && (r.Failure? ==> r.error == (if id >= |db.invoices| then NotFound
                  else if db.invoices[id].state != State.Draft then Fsm(Illegal(db.invoices[id].state, "issue"))
                  else if BuyerOf(db, id).country == "" then TaxFailed(T.InvalidBuyerCountry(""))
                  else if !env.renders then Render
                  else Repo))
  {
    hide KeysUnique, SendsOk, BusOk, Chained, StampsMatch, TotalsAddUp, PaidMatchesState, NextState, NextNumber, Taken,
         TaxedLines, IssuedInvoice;
    if id < |db.invoices| {
      assert InvoiceAt(db, id);
      EdgesExactly(db.invoices[id].state, Issue);
    }
  }

  /** The address an invoice is taxed at. */
  function BuyerOf(db: Db, id: nat): T.Address {
    if id < |db.invoices| && db.invoices[id].customer < |db.customers| then db.customers[db.invoices[id].customer]
    else T.Address("", None)
  }

  /** Each line keeps its item and freezes the tax the resolver gives it at the buyer's address on the day of issue. */
  ghost predicate Taxed(cfg: T.Config, inv: Invoice, buyer: T.Address, was: Line, l: Line, now: Instant) {
    var c := inv.currency;
    var exact := T.ExactTax(cfg, inv.seller, buyer, was.category, Base(was), NO_FIGURES, now.date);
    && l == was.(taxIds := l.taxIds, taxAmount := l.taxAmount, lineTotal := l.lineTotal)
    && l.taxAmount == c.Round(exact)
    && l.taxIds == T.Ids(T.RecordedRows(cfg, inv.seller, buyer, was.category, NO_FIGURES, now.date))
    && l.lineTotal == c.Round(Base(was)) + l.taxAmount
  }

  lemma LineIsTaxed(cfg: T.Config, inv: Invoice, buyer: T.Address, was: Line, now: Instant)
    ensures Taxed(cfg, inv, buyer, was, TaxedLine(cfg, inv, buyer, was, now), now)
  {
    hide T.ExactTax, T.RecordedRows, M.Currency.Round, M.Currency.OnGrid, T.Ids;
    TaxedLineAddsUp(cfg, inv, buyer, was, now);
  }

  lemma {:induction false} LinesAreTaxed(cfg: T.Config, inv: Invoice, buyer: T.Address, lines: seq<Line>, now: Instant, i: nat)
    requires i < |lines|
    ensures Taxed(cfg, inv, buyer, lines[i], TaxedLines(cfg, inv, buyer, lines, now)[i], now)
  {
    hide Taxed, TaxedLine;
    LastTaxedLine(cfg, inv, buyer, lines, now);
    if i < |lines| - 1 {
      LinesAreTaxed(cfg, inv, buyer, lines[..|lines| - 1], now, i);
    } else {
      LineIsTaxed(cfg, inv, buyer, lines[i], now);
    }
  }

  /** What an issue writes: the number, the stamp, the row, and every line taxed. */
  lemma IssueRecords(db: Db, cfg: T.Config, id: nat, env: Env)
    requires Inv(db) && IssueInvoice(db, cfg, id, env).1.Success?
    ensures var (db', r) := IssueInvoice(db, cfg, id, env);
            var was, lines, inv, taxed := db.invoices[id], LinesOf(db, id), db'.invoices[id], LinesOf(db', id);
            && r.value == id
            && OneRowWritten(db, db', db.(lines := db.lines[id := taxed]), id,
                             Row(id, Some(State.Draft), Issued, "issue", env.now, None, None, None))
            && inv == was.(state := Issued, number := Some(NextNumber("INV", InvoiceNumbers(db), env.now)),
                           issuedAt := Some(env.now), subtotal := inv.subtotal, taxTotal := inv.taxTotal,
                           total := inv.total, review := inv.review)
            && |taxed| == |lines|
            && forall i :: 0 <= i < |lines| ==> Taxed(cfg, was, BuyerOf(db, id), lines[i], taxed[i], env.now)
  {
    hide LedgerOk, KeysUnique, SendsOk, BusOk, NextState, NextNumber, Taken, TaxedLines, IssuedInvoice, Taxed;
    var was, lines := db.invoices[id], LinesOf(db, id);
    var buyer := db.customers[was.customer];
    IssueAnswers(db, cfg, id, env);
    IssuedFields(db, cfg, was, buyer, lines, env.now);
    forall i | 0 <= i < |lines|
      ensures Taxed(cfg, was, buyer, lines[i], TaxedLines(cfg, was, buyer, lines, env.now)[i], env.now)
    {
      LinesAreTaxed(cfg, was, buyer, lines, env.now, i);
    }
  }

  /** A line that a Delaware seller may not tax yet: a taxed category, a US buyer elsewhere, and no nexus there. */
  ghost predicate AwaitsNexus(cfg: T.Config, seller: T.Jurisdiction, buyer: T.Address, l: Line) {
    && (l.category == T.Standard || l.category == T.Reduced)
    && seller == T.DelawareUs && T.SameText(buyer.country, "US")
    && (buyer.region.None? || !T.SameText(buyer.region.value, "DE"))
    && !T.NexusCrossed(cfg.nexus, buyer, NO_FIGURES)
  }

  lemma ReviewOfLine(cfg: T.Config, seller: T.Jurisdiction, buyer: T.Address, l: Line)
    ensures T.NeedsReview(cfg, seller, buyer, l.category, NO_FIGURES) <==> AwaitsNexus(cfg, seller, buyer, l)
  {
    hide T.SameText, T.NexusCrossed;
  }

  /** The stored flag says exactly whether some line went out untaxed for want of nexus. */
  lemma ReviewIsFlagged(db: Db, cfg: T.Config, id: nat, env: Env)
    requires Inv(db) && IssueInvoice(db, cfg, id, env).1.Success?
    ensures IssueInvoice(db, cfg, id, env).0.invoices[id].review <==>
              exists l :: l in LinesOf(db, id) && AwaitsNexus(cfg, db.invoices[id].seller, BuyerOf(db, id), l)
  {
    hide LedgerOk, KeysUnique, SendsOk, BusOk, NextState, NextNumber, Taken, TaxedLines, AwaitsNexus, T.NeedsReview;
    var inv, lines := db.invoices[id], LinesOf(db, id);
    IssueAnswers(db, cfg, id, env);
    forall l: Line
      ensures T.NeedsReview(cfg, inv.seller, BuyerOf(db, id), l.category, NO_FIGURES)
         <==> AwaitsNexus(cfg, inv.seller, BuyerOf(db, id), l)
    {
      ReviewOfLine(cfg, inv.seller, BuyerOf(db, id), l);
    }
    FlagOfIssue(db, cfg, id, env);
  }

  lemma FlagOfIssue(db: Db, cfg: T.Config, id: nat, env: Env)
    requires IssueInvoice(db, cfg, id, env).1.Success?
    ensures IssueInvoice(db, cfg, id, env).0.invoices[id].review
         == AnyReview(cfg, db.invoices[id], BuyerOf(db, id), LinesOf(db, id))
  {
    hide NextNumber, Taken, TaxedLines, AnyReview, M.Currency.Round, Subtotals, TaxAmounts;
  }

  // ---------------------------------------------------------------------------
  // Credit notes
  // ---------------------------------------------------------------------------

  /** A credit note is drafted exactly for a positive amount on an invoice that is there, with a commit. */
  lemma CreditAnswers(db: Db, invoice: nat, amount: real, refundRef: Option<string>, env: Env)
    ensures var (db', r) := CreateCreditNote(db, invoice, amount, refundRef, env);
            && (r.Success? <==> amount > 0.0 && invoice < |db.invoices| && env.commits)
            && (r.Failure? ==> db' == db)
            && (r.Failure? ==> r.error == (if amount <= 0.0 then Validation else if invoice >= |db.invoices| then NotFound else Repo))
  {
  }

  /** It is for that invoice, in its currency, of the amount to the nearest minor unit, under the refund's reference. */
  lemma CreditRecords(db: Db, invoice: nat, amount: real, refundRef: Option<string>, env: Env)
    requires CreateCreditNote(db, invoice, amount, refundRef, env).1.Success?
    ensures var (db', r) := CreateCreditNote(db, invoice, amount, refundRef, env);
            var id, c := |db.creditNotes|, db.invoices[invoice].currency;
            && r.value == id && |db'.creditNotes| == id + 1 && db'.creditNotes[..id] == db.creditNotes
            && db' == db.(creditNotes := db'.creditNotes, creditHistory := db.creditHistory +
                            [CreditRow(id, None, CreditDraft, "draft", env.now, refundRef)])
            && var note := db'.creditNotes[id];
               && note == CreditNote(None, invoice, CreditDraft, note.amount, c, refundRef, None)
               && c.OnGrid(note.amount) && M.Abs(c.Minor(note.amount - amount)) <= 0.5
  {
    hide M.Currency.Round, M.Currency.OnGrid, M.Currency.Minor;
    M.RoundWithinHalfUnit(db.invoices[invoice].currency, amount);
  }

  /** A credit note is issued exactly once, with a free number and a commit. */
  lemma IssueCreditAnswers(db: Db, id: nat, env: Env)
    ensures var (db', r) := IssueCreditNote(db, id, env);
            var number := NextNumber("CN", CreditNumbers(db), env.now);
            && (r.Success? <==> id < |db.creditNotes| && db.creditNotes[id].state == CreditDraft && env.commits
                                && !Taken(CreditNumbers(db), number))
            && (r.Failure? ==> db' == db)
            && (r.Failure? ==> r.error == (if id >= |db.creditNotes| then NotFound
                  else if db.creditNotes[id].state != CreditDraft then Validation else Repo))
            && (r.Success? ==>
                  && r.value == id && |db'.creditNotes| == |db.creditNotes|
                  && (forall i :: 0 <= i < |db.creditNotes| && i != id ==> db'.creditNotes[i] == db.creditNotes[i])
                  && db'.creditNotes[id]
                     == db.creditNotes[id].(state := CreditIssued, number := Some(number), issuedAt := Some(env.now))
                  && db' == db.(creditNotes := db'.creditNotes, creditHistory := db.creditHistory +
                                  [CreditRow(id, Some(CreditDraft), CreditIssued, "issue", env.now, None)]))
  {
    hide NextNumber, Taken;
  }

  // ---------------------------------------------------------------------------
  // Bus payloads
  // ---------------------------------------------------------------------------

  /**
   A charge from the bus drafts an invoice for its customer and currency, from Quebec unless it names
   another seller, under its own key or else the event's, with its lines as they came.
   */
  lemma ChargeIsDrafted(db: Db, d: Delivery)
    requires d.payload.ChargeCreated? && d.payload.customer.Some? && Dispatch(db, d).1
    ensures var db', p := Dispatch(db, d).0, d.payload;
            var key := if p.key.Some? then p.key else Some(d.eventId);
            || (db' == db && exists i :: 0 <= i < |db.invoices| && db.invoices[i].key == key)
            || (&& |db'.invoices| == |db.invoices| + 1
                && var id := |db.invoices|;
                   var inv := db'.invoices[id];
                   && inv.customer == p.customer.value && inv.currency == p.currency
                   && inv.seller == (if p.seller.Some? then p.seller.value else T.QuebecCa)
                   && inv.key == key && inv.schedule == None && inv.state == State.Draft
                   && Quotes(p.currency, LinesOf(db', id), p.lines))
  {
    hide ValidDraft, DraftInvoice, Quotes;
    DraftAnswers(db, ChargeInput(d), d.env);
    var (db', r) := DraftInvoice(db, ChargeInput(d), d.env);
    FreshOrReplay(db, ChargeInput(d), d.env);
    if !r.value.replay {
      DraftRecords(db, ChargeInput(d), d.env);
    }
  }

  lemma FreshOrReplay(db: Db, input: DraftInput, env: Env)
    requires DraftInvoice(db, input, env).1.Success?
    ensures var (db', r) := DraftInvoice(db, input, env);
            r.value.replay ==> db' == db && r.value.invoice < |db.invoices| && db.invoices[r.value.invoice].key == input.key
                               && input.key.Some?
  {
    hide ValidDraft, DraftedLines, DraftedInvoice;
  }

  /** A refund from the bus drafts a credit note of its amount on its invoice, under its own id or else the event's. */
  lemma RefundIsCredited(db: Db, d: Delivery)
    requires d.payload.PaymentRefunded? && d.payload.refundedRef.Some? && Dispatch(db, d).1
    ensures var db', p := Dispatch(db, d).0, d.payload;
            && |db'.creditNotes| == |db.creditNotes| + 1 && p.refundedRef.value < |db.invoices|
            && var note, c := db'.creditNotes[|db.creditNotes|], db.invoices[p.refundedRef.value].currency;
               && note.invoice == p.refundedRef.value && note.currency == c && note.state == CreditDraft
               && note.refundRef == (if p.refundId.Some? then p.refundId else Some(d.eventId))
               && c.OnGrid(note.amount) && M.Abs(c.Minor(note.amount - p.refund)) <= 0.5
  {
    hide CreateCreditNote, M.Currency.OnGrid, M.Currency.Minor;
    var refundRef := if d.payload.refundId.Some? then d.payload.refundId.value else d.eventId;
    CreditAnswers(db, d.payload.refundedRef.value, d.payload.refund, Some(refundRef), d.env);
    CreditRecords(db, d.payload.refundedRef.value, d.payload.refund, Some(refundRef), d.env);
  }

  /** A payment from the bus is booked as it came: its invoice, amount and time, under the id of the event. */
  lemma PaymentIsBooked(db: Db, d: Delivery)
    requires Inv(db) && d.payload.PaymentReceived? && d.payload.invoiceRef.Some? && Dispatch(db, d).1
    ensures var db', p, id := Dispatch(db, d).0, d.payload, d.payload.invoiceRef.value;
            && id < |db.invoices|
            && var inv, paid := db.invoices[id], db.invoices[id].amountPaid + p.amount;
               var to := if paid >= inv.total then Paid else PartiallyPaid;
               && OneRowWritten(db, db', db, id,
                                Row(id, Some(inv.state), to, "pay", p.receivedAt, Some(p.amount), None, Some(d.eventId)))
               && db'.invoices[id].amountPaid == paid && db'.invoices[id].state == to
  {
    hide Inv, MarkPaid;
    var p := d.payload;
    PaymentAnswers(db, p.invoiceRef.value, p.amount, Some(p.receivedAt), Some(d.eventId), d.env);
    PaymentRecords(db, p.invoiceRef.value, p.amount, Some(p.receivedAt), Some(d.eventId), d.env);
  }

  /** A bus event goes through exactly when its reference is there and its command has what it needs. */
  lemma DispatchSucceedsExactly(db: Db, d: Delivery)
    requires Inv(db)
    ensures Dispatch(db, d).1 <==> Dispatchable(db, d)
  {
    hide Inv, MarkPaid, CreateCreditNote, DraftInvoice, IsBadLine;
    match d.payload {
      case ChargeCreated(customer, _, _, _, _) =>
        if customer.Some? {
          DraftAnswers(db, ChargeInput(d), d.env);
          BadLineExactly(ChargeInput(d));
        }
      case PaymentReceived(ref, amount, receivedAt) =>
        if ref.Some? {
          PaymentAnswers(db, ref.value, amount, Some(receivedAt), Some(d.eventId), d.env);
        }
      case PaymentRefunded(ref, refund, refundId) =>
        if ref.Some? {
          CreditAnswers(db, ref.value, refund, Some(if refundId.Some? then refundId.value else d.eventId), d.env);
        }
      case Unroutable =>
    }
  }

  predicate Dispatchable(db: Db, d: Delivery) {
    match d.payload
    case ChargeCreated(customer, _, currency, lines, key) =>
      var name := if key.Some? then key else Some(d.eventId);
      && customer.Some? && lines != [] && currency.code in ["USD", "CAD", "DZD"]
      && (forall i :: 0 <= i < |lines| ==> !IsBadLine(lines[i]))
      && ((exists i :: 0 <= i < |db.invoices| && db.invoices[i].key == name)
          || (customer.value < |db.customers| && d.env.commits))
    case PaymentReceived(ref, amount, _) =>
      ref.Some? && amount > 0.0 && ref.value < |db.invoices| && Open(db.invoices[ref.value].state) && d.env.commits
    case PaymentRefunded(ref, refund, _) =>
      ref.Some? && refund > 0.0 && ref.value < |db.invoices| && d.env.commits
    case Unroutable => false
  }

  lemma BadLineExactly(input: DraftInput)
    ensures ValidDraft(input) <==>
              && input.lines != [] && input.currency.code in ["USD", "CAD", "DZD"]
              && forall i :: 0 <= i < |input.lines| ==> !IsBadLine(input.lines[i])
  {
    hide Text.Blank;
    if ValidDraft(input) {
      assert forall i :: 0 <= i < |input.lines| ==> ValidLine(input.lines[i]);
    }
  }

  /** A delivery without a usable payload or reference fails and writes nothing. */
  lemma UnroutableFails(db: Db, d: Delivery)
    requires match d.payload
             case ChargeCreated(customer, _, _, _, _) => customer.None?
             case PaymentReceived(ref, _, _) => ref.None?
             case PaymentRefunded(ref, _, _) => ref.None?
             case Unroutable => true
    ensures Dispatch(db, d) == (db, false)
  {
  }
}
