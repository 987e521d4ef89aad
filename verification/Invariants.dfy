/**
 What every command keeps true of every invoice: its totals add up, its payments are exactly those
 in its history, and its history is a faithful chain of state-machine edges.
 */
module Invariants {
  import opened Wrappers
  import opened Calendar
  import opened Money
  import opened Lifecycle
  import opened Tables
  import opened Ledger
  import opened Numbering
  import T = Tax

  // ---------------------------------------------------------------------------
  // History as a chain
  // ---------------------------------------------------------------------------

  function PayAmount(r: Row): real {
    if r.event == "pay" && r.amount.Some? then r.amount.value else 0.0
  }

  /** The sum of the amounts on the pay rows. */
  function PaidSum(rows: seq<Row>): real {
    if rows == [] then 0.0 else PaidSum(rows[..|rows| - 1]) + PayAmount(rows[|rows| - 1])
  }

  /** The event a history row records, given what had been paid after it. No command writes `remind` rows. */
  function EventOf(r: Row, paid: real, total: real): Option<Event> {
    if r.event == "issue" then Some(Issue)
    else if r.event == "send" then Some(Send)
    else if r.event == "view" then Some(View)
    else if r.event == "pay" then Some(Pay(paid, total))
    else if r.event == "void" then Some(Void)
    else None
  }

  predicate IsResend(before: State, r: Row) {
    r.event == "send" && before == Sent && r.to == Sent
  }

  /** `r` follows a row that ended in `before`: an edge of the table for its own event, or the resend. */
  predicate Link(before: State, r: Row, paid: real, total: real) {
    && r.from == Some(before)
    && (r.event == "pay" <==> r.amount.Some?)
    && (r.amount.Some? ==> r.amount.value > 0.0)
    && (IsResend(before, r)
        || (EventOf(r, paid, total).Some? && NextState(before, EventOf(r, paid, total).value) == Success(r.to)))
  }

  /** Starts with `None -> Draft`, and each later row links to the one before it. */
  predicate Chained(rows: seq<Row>, total: real) {
    if rows == [] then false
    else
      var n := |rows| - 1;
      if n == 0 then rows[0].from == None && rows[0].to == State.Draft && rows[0].event == "draft" && rows[0].amount == None
      else Chained(rows[..n], total) && Link(rows[n - 1].to, rows[n], PaidSum(rows), total)
  }

  // ---------------------------------------------------------------------------
  // One invoice
  // ---------------------------------------------------------------------------

  /** The paid amount each state allows. */
  predicate PaidMatchesState(inv: Invoice) {
    match inv.state
    case PartiallyPaid => 0.0 < inv.amountPaid < inv.total
    case Paid => inv.amountPaid > 0.0 && inv.amountPaid >= inv.total
    case Voided => inv.amountPaid == 0.0 || 0.0 < inv.amountPaid < inv.total
    case _ => inv.amountPaid == 0.0
  }

  predicate AmountsAddUp(c: Currency, subtotal: real, tax: real, total: real, lines: seq<Line>) {
    && subtotal == Subtotals(c, lines)
    && tax == TaxAmounts(lines)
    && total == subtotal + tax == LineTotals(lines)
    && c.OnGrid(subtotal) && c.OnGrid(tax) && c.OnGrid(total)
  }

  predicate TotalsAddUp(inv: Invoice, lines: seq<Line>) {
    && AmountsAddUp(inv.currency, inv.subtotal, inv.taxTotal, inv.total, lines)
    && (inv.state == State.Draft ==> inv.taxTotal == 0.0)
  }

  /** A state's own stamp is the time of the row that led to it; only the two ends have an end stamp. */
  predicate StampsMatch(inv: Invoice, last: Row) {
    && (inv.state == Issued ==> inv.issuedAt == Some(last.occurredAt))
    && (inv.state == Sent ==> inv.sentAt == Some(last.occurredAt))
    && (inv.state == Viewed ==> inv.viewedAt == Some(last.occurredAt))
    && inv.paidAt == (if inv.state == Paid then Some(last.occurredAt) else None)
    && inv.voidedAt == (if inv.state == Voided then Some(last.occurredAt) else None)
  }

  predicate InvoiceOk(inv: Invoice, lines: seq<Line>, rows: seq<Row>) {
    && Chained(rows, inv.total)
    && rows[|rows| - 1].to == inv.state
    && StampsMatch(inv, rows[|rows| - 1])
    && inv.amountPaid == PaidSum(rows)
    && PaidMatchesState(inv)
    && TotalsAddUp(inv, lines)
    && (inv.state == State.Draft <==> inv.number.None?)
    && (inv.state == State.Draft <==> inv.issuedAt.None?)
    && lines != []
  }

  /** No row leads back to Draft, so a draft has only its first row. */
  lemma DraftHasOneRow(rows: seq<Row>, total: real)
    requires Chained(rows, total) && rows[|rows| - 1].to == State.Draft
    ensures |rows| == 1 && PaidSum(rows) == 0.0
  {
    if |rows| == 1 {
      assert rows[..0] == [];
    }
  }

  lemma FirstRowChains(row: Row, total: real)
    requires row.from == None && row.to == State.Draft && row.event == "draft" && row.amount == None
    ensures Chained([row], total) && PaidSum([row]) == 0.0
  {
    var rows := [row];
    assert |rows| == 1 && rows[0] == row && rows[..0] == [];
    assert PaidSum(rows) == PaidSum(rows[..0]) + PayAmount(rows[0]);
  }

  /** Every history row is one of the rows of its invoice. */
  lemma {:induction false} RowIsListed(history: seq<Row>, k: nat)
    requires k < |history|
    ensures history[k] in RowsOf(history, history[k].invoice)
  {
    var n := |history| - 1;
    if k < n {
      RowIsListed(history[..n], k);
    }
  }

  lemma ChainAppend(rows: seq<Row>, r: Row, total: real)
    requires Chained(rows, total)
    requires Link(rows[|rows| - 1].to, r, PaidSum(rows) + PayAmount(r), total)
    ensures Chained(rows + [r], total)
    ensures PaidSum(rows + [r]) == PaidSum(rows) + PayAmount(r)
  {
    hide Link;
    assert (rows + [r])[..|rows|] == rows;
  }

  /** Row `k` of a chain, spelled out. */
  lemma {:induction false} ChainAt(rows: seq<Row>, total: real, k: nat)
    requires Chained(rows, total) && k < |rows|
    ensures k == 0 ==> rows[0].from == None && rows[0].to == State.Draft && rows[0].event == "draft"
    ensures k > 0 ==> Link(rows[k - 1].to, rows[k], PaidSum(rows[..k + 1]), total)
  {
    if k < |rows| - 1 {
      ChainAt(rows[..|rows| - 1], total, k);
      assert rows[..|rows| - 1][..k + 1] == rows[..k + 1];
    } else {
      assert rows[..k + 1] == rows;
    }
  }

  /** How often the state moved, not counting the draft itself and the rows that stay where they are. */
  function MoveCount(rows: seq<Row>): nat {
    if rows == [] then 0
    else
      var r := rows[|rows| - 1];
      MoveCount(rows[..|rows| - 1]) + (if r.from.Some? && r.from != Some(r.to) then 1 else 0)
  }

  /** Every move climbs a rank, so a history holds at most five. */
  lemma {:induction false} MovesWithinRank(rows: seq<Row>, total: real)
    requires Chained(rows, total)
    ensures MoveCount(rows) <= Rank(rows[|rows| - 1].to) <= 5
  {
    hide PaidSum;
    var n := |rows| - 1;
    if n > 0 {
      MovesWithinRank(rows[..n], total);
    } else {
      assert rows[..0] == [];
    }
  }

  // ---------------------------------------------------------------------------
  // The draft and issue sums agree to the unit
  // ---------------------------------------------------------------------------

  lemma {:induction false} SumsOnGrid(c: Currency, lines: seq<Line>)
    ensures c.OnGrid(Subtotals(c, lines)) && c.Round(Subtotals(c, lines)) == Subtotals(c, lines)
  {
    hide Currency.OnGrid, Currency.Round;
    if lines != [] {
      var n := |lines| - 1;
      SumsOnGrid(c, lines[..n]);
      RoundWithinHalfUnit(c, Base(lines[n]));
      GridSum(c, Subtotals(c, lines[..n]), c.Round(Base(lines[n])));
    } else {
      ZeroOnGrid(c);
    }
  }

  lemma {:induction false} DraftSums(c: Currency, lines: seq<DraftLine>)
    ensures LineTotals(DraftedLines(c, lines)) == Subtotals(c, DraftedLines(c, lines))
    ensures TaxAmounts(DraftedLines(c, lines)) == 0.0
  {
    hide Currency.Round;
    if lines != [] {
      var n := |lines| - 1;
      DraftSums(c, lines[..n]);
      assert DraftedLines(c, lines)[..n] == DraftedLines(c, lines[..n]);
    }
  }

  /** A line keeps its base, gets tax on the grid, and totals the rounded base plus the tax. */
  lemma TaxedLineAddsUp(cfg: T.Config, inv: Invoice, buyer: T.Address, l: Line, now: Instant)
    ensures var taxed := TaxedLine(cfg, inv, buyer, l, now);
            && Base(taxed) == Base(l)
            && inv.currency.OnGrid(taxed.taxAmount)
            && taxed.lineTotal == inv.currency.Round(Base(l)) + taxed.taxAmount
  {
    hide T.ExactTax, T.RecordedRows, Currency.OnGrid, Currency.Round;
    var c := inv.currency;
    var exact := T.ExactTax(cfg, inv.seller, buyer, l.category, Base(l), NO_FIGURES, now.date);
    RoundWithinHalfUnit(c, Base(l));
    RoundWithinHalfUnit(c, exact);
    GridSum(c, c.Round(Base(l)), c.Round(exact));
  }

  lemma LastTaxedLine(cfg: T.Config, inv: Invoice, buyer: T.Address, lines: seq<Line>, now: Instant)
    requires lines != []
    ensures var n, taxed := |lines| - 1, TaxedLines(cfg, inv, buyer, lines, now);
            && taxed[..n] == TaxedLines(cfg, inv, buyer, lines[..n], now)
            && taxed[n] == TaxedLine(cfg, inv, buyer, lines[n], now)
  {
  }

  lemma {:induction false} IssueSums(cfg: T.Config, inv: Invoice, buyer: T.Address, lines: seq<Line>, now: Instant)
    ensures var taxed := TaxedLines(cfg, inv, buyer, lines, now);
            && Subtotals(inv.currency, taxed) == Subtotals(inv.currency, lines)
            && LineTotals(taxed) == Subtotals(inv.currency, lines) + TaxAmounts(taxed)
  {
    hide TaxedLine, Currency.Round;
    if lines != [] {
      IssueSums(cfg, inv, buyer, lines[..|lines| - 1], now);
      LastTaxedLine(cfg, inv, buyer, lines, now);
      TaxedLineAddsUp(cfg, inv, buyer, lines[|lines| - 1], now);
    }
  }

  lemma {:induction false} IssueTaxOnGrid(cfg: T.Config, inv: Invoice, buyer: T.Address, lines: seq<Line>, now: Instant)
    ensures inv.currency.OnGrid(TaxAmounts(TaxedLines(cfg, inv, buyer, lines, now)))
  {
    hide Currency.OnGrid, Currency.Round, TaxedLine;
    var taxed := TaxedLines(cfg, inv, buyer, lines, now);
    if lines != [] {
      var n := |lines| - 1;
      IssueTaxOnGrid(cfg, inv, buyer, lines[..n], now);
      LastTaxedLine(cfg, inv, buyer, lines, now);
      TaxedLineAddsUp(cfg, inv, buyer, lines[n], now);
      GridSum(inv.currency, TaxAmounts(taxed[..n]), taxed[n].taxAmount);
    } else {
      ZeroOnGrid(inv.currency);
    }
  }

  lemma RoundedTotals(c: Currency, subtotal: real, tax: real)
    requires c.OnGrid(subtotal) && c.OnGrid(tax)
    ensures c.Round(subtotal) == subtotal && c.Round(tax) == tax
    ensures c.Round(subtotal + tax) == subtotal + tax && c.OnGrid(subtotal + tax)
  {
    RoundExactOnGrid(c, subtotal);
    RoundExactOnGrid(c, tax);
    GridSum(c, subtotal, tax);
  }

  lemma IssueAmounts(cfg: T.Config, inv: Invoice, buyer: T.Address, lines: seq<Line>, now: Instant)
    requires AmountsAddUp(inv.currency, inv.subtotal, inv.taxTotal, inv.total, lines)
    ensures var c, taxed := inv.currency, TaxedLines(cfg, inv, buyer, lines, now);
            var subtotal, tax := c.Round(Subtotals(c, lines)), c.Round(TaxAmounts(taxed));
            AmountsAddUp(c, subtotal, tax, c.Round(subtotal + tax), taxed) && subtotal == inv.subtotal
  {
    hide Currency.OnGrid, Currency.Round, TaxedLines;
    IssueSums(cfg, inv, buyer, lines, now);
    IssueTaxOnGrid(cfg, inv, buyer, lines, now);
    RoundedTotals(inv.currency, inv.subtotal, TaxAmounts(TaxedLines(cfg, inv, buyer, lines, now)));
  }

  /**
   Issuing leaves subtotal + tax = total = the sum of the line totals, exactly, and the subtotal is
   the one the draft already stored.
   */
  lemma IssueTotals(db: Db, cfg: T.Config, inv: Invoice, buyer: T.Address, lines: seq<Line>, now: Instant)
    requires TotalsAddUp(inv, lines)
    ensures var inv' := IssuedInvoice(db, cfg, inv, buyer, lines, now);
            && TotalsAddUp(inv', TaxedLines(cfg, inv, buyer, lines, now))
            && inv'.subtotal == inv.subtotal
  {
    hide Currency.OnGrid, Currency.Round, AmountsAddUp, TaxedLines, NextNumber, AnyReview;
    IssueAmounts(cfg, inv, buyer, lines, now);
  }

  /** The amount due before any rounding: each base plus the rates charged on it. */
  function ExactTotal(cfg: T.Config, inv: Invoice, buyer: T.Address, lines: seq<Line>, now: Instant): real {
    if lines == [] then 0.0
    else
      var l := lines[|lines| - 1];
      ExactTotal(cfg, inv, buyer, lines[..|lines| - 1], now) + Base(l)
      + T.ExactTax(cfg, inv.seller, buyer, l.category, Base(l), NO_FIGURES, now.date)
  }

  lemma LineErrorBound(cfg: T.Config, inv: Invoice, buyer: T.Address, l: Line, now: Instant)
    ensures var exact := Base(l) + T.ExactTax(cfg, inv.seller, buyer, l.category, Base(l), NO_FIGURES, now.date);
            Abs(inv.currency.Minor(TaxedLine(cfg, inv, buyer, l, now).lineTotal - exact)) <= 1.0
  {
    hide T.ExactTax, T.RecordedRows, Currency.Round, Currency.Minor;
    var c, exact := inv.currency, T.ExactTax(cfg, inv.seller, buyer, l.category, Base(l), NO_FIGURES, now.date);
    TaxedLineAddsUp(cfg, inv, buyer, l, now);
    RoundWithinHalfUnit(c, Base(l));
    RoundWithinHalfUnit(c, exact);
    MinorLinear(c, c.Round(Base(l)) - Base(l), c.Round(exact) - exact);
  }

  /** Rounding costs at most one minor unit per line over the whole invoice. */
  lemma {:induction false} IssueErrorBound(cfg: T.Config, inv: Invoice, buyer: T.Address, lines: seq<Line>, now: Instant)
    ensures Abs(inv.currency.Minor(
              LineTotals(TaxedLines(cfg, inv, buyer, lines, now)) - ExactTotal(cfg, inv, buyer, lines, now)))
            <= |lines| as real
  {
    hide Currency.Minor, TaxedLine, TaxedLines, T.ExactTax;
    if lines != [] {
      var n := |lines| - 1;
      var l, taxed := lines[n], TaxedLines(cfg, inv, buyer, lines, now);
      var exact := Base(l) + T.ExactTax(cfg, inv.seller, buyer, l.category, Base(l), NO_FIGURES, now.date);
      IssueErrorBound(cfg, inv, buyer, lines[..n], now);
      LastTaxedLine(cfg, inv, buyer, lines, now);
      LineErrorBound(cfg, inv, buyer, l, now);
      MinorLinear(inv.currency, LineTotals(taxed[..n]) - ExactTotal(cfg, inv, buyer, lines[..n], now),
                  taxed[n].lineTotal - exact);
    } else {
      MinorLinear(inv.currency, 0.0, 0.0);
    }
  }

  // ---------------------------------------------------------------------------
  // All invoices
  // ---------------------------------------------------------------------------

  ghost predicate InvoiceAt(db: Db, id: nat)
    requires id < |db.invoices|
  {
    && id in db.lines
    && InvoiceOk(db.invoices[id], db.lines[id], RowsOf(db.history, id))
    && db.invoices[id].customer < |db.customers|
  }

  ghost predicate LedgerOk(db: Db) {
    && (forall id: nat :: id < |db.invoices| ==> InvoiceAt(db, id))
    && (forall k :: 0 <= k < |db.history| ==> db.history[k].invoice < |db.invoices|)
  }

  lemma OthersKeep(db: Db, db': Db, id: nat, row: Row, i: nat)
    requires i < |db.invoices| && i < |db'.invoices| && i != id && InvoiceAt(db, i)
    requires db'.invoices[i] == db.invoices[i] && db'.customers == db.customers
    requires i in db'.lines && db'.lines[i] == db.lines[i]
    requires row.invoice == id && db'.history == db.history + [row]
    ensures InvoiceAt(db', i)
  {
    hide InvoiceOk;
    RowsOfAppend(db.history, row, i);
    assert RowsOf(db'.history, i) == RowsOf(db.history, i);
  }

  lemma AddKeeps(db: Db, inv: Invoice, lines: seq<Line>, row: Row)
    requires LedgerOk(db) && inv.customer < |db.customers|
    requires row.invoice == |db.invoices| && InvoiceOk(inv, lines, [row])
    ensures LedgerOk(AddInvoice(db, inv, lines, row))
  {
    hide InvoiceOk;
    var db' := AddInvoice(db, inv, lines, row);
    forall id: nat | id < |db'.invoices|
      ensures InvoiceAt(db', id)
    {
      if id < |db.invoices| {
        OthersKeep(db, db', |db.invoices|, row, id);
      } else {
        RowsOfAppend(db.history, row, id);
        NoRowsOfStrangers(db.history, id);
        assert [] + [row] == [row];
      }
    }
  }

  /** Updating one invoice with one new history row keeps the rest, whatever its new lines are. */
  lemma AdvanceKeeps(db: Db, id: nat, inv: Invoice, lines: seq<Line>, row: Row)
    requires LedgerOk(db) && id < |db.invoices| && inv.customer == db.invoices[id].customer
    requires row.invoice == id && InvoiceOk(inv, lines, RowsOf(db.history, id) + [row])
    ensures LedgerOk(Advanced(db.(lines := db.lines[id := lines]), id, inv, row))
  {
    hide InvoiceOk;
    var db' := Advanced(db.(lines := db.lines[id := lines]), id, inv, row);
    assert InvoiceAt(db, id);
    forall i: nat | i < |db'.invoices|
      ensures InvoiceAt(db', i)
    {
      if i == id {
        RowsOfAppend(db.history, row, id);
      } else {
        OthersKeep(db, db', id, row, i);
      }
    }
  }

  /** A state-machine step that leaves lines and totals alone. */
  predicate IsStep(was: Invoice, inv: Invoice, row: Row) {
    && inv == was.(state := inv.state, amountPaid := inv.amountPaid, sentAt := inv.sentAt,
                   viewedAt := inv.viewedAt, paidAt := inv.paidAt, voidedAt := inv.voidedAt)
    && row.to == inv.state != State.Draft && was.state != State.Draft
    && inv.amountPaid == was.amountPaid + PayAmount(row) && PaidMatchesState(inv) && StampsMatch(inv, row)
    && Link(was.state, row, inv.amountPaid, inv.total)
  }

  lemma StepKeeps(db: Db, id: nat, inv: Invoice, row: Row)
    requires LedgerOk(db) && id < |db.invoices|
    requires row.invoice == id && IsStep(db.invoices[id], inv, row)
    ensures LedgerOk(Advanced(db, id, inv, row))
  {
    assert InvoiceAt(db, id);
    StepOk(db.invoices[id], inv, db.lines[id], RowsOf(db.history, id), row);
    AdvanceKeeps(db, id, inv, db.lines[id], row);
    assert db.lines[id := db.lines[id]] == db.lines;
    assert db.(lines := db.lines[id := db.lines[id]]) == db;
  }

  lemma StepOk(was: Invoice, inv: Invoice, lines: seq<Line>, rows: seq<Row>, row: Row)
    requires InvoiceOk(was, lines, rows) && IsStep(was, inv, row)
    ensures InvoiceOk(inv, lines, rows + [row])
  {
    hide AmountsAddUp;
    ChainAppend(rows, row, inv.total);
  }

  // ---------------------------------------------------------------------------
  // Each command
  // ---------------------------------------------------------------------------

  lemma DraftKeeps(db: Db, input: DraftInput, env: Env)
    requires LedgerOk(db)
    ensures LedgerOk(DraftInvoice(db, input, env).0)
  {
    hide Currency.OnGrid, Currency.Round;
    if DraftInvoice(db, input, env).0 != db {
      var c, lines := input.currency, DraftedLines(input.currency, input.lines);
      var row := DraftRow(|db.invoices|, env.now);
      SumsOnGrid(c, lines);
      DraftSums(c, input.lines);
      ZeroOnGrid(c);
      var inv := DraftedInvoice(input);
      FirstRowChains(row, inv.total);
      assert TotalsAddUp(inv, lines);
      AddKeeps(db, inv, lines, row);
    }
  }

  /** A draft's only row, and the issue row after it. */
  lemma IssueChains(rows: seq<Row>, total: real, id: nat, now: Instant, total': real)
    requires Chained(rows, total) && rows[|rows| - 1].to == State.Draft
    ensures var row := PlainRow(id, State.Draft, Issued, Issue, now);
            Chained(rows + [row], total') && PaidSum(rows + [row]) == 0.0
  {
    var row := PlainRow(id, State.Draft, Issued, Issue, now);
    DraftHasOneRow(rows, total);
    assert Chained(rows, total');
    ChainAppend(rows, row, total');
  }

  lemma IssueOk(db: Db, cfg: T.Config, id: nat, buyer: T.Address, rows: seq<Row>, now: Instant)
    requires id < |db.invoices| && id in db.lines && InvoiceOk(db.invoices[id], db.lines[id], rows)
    requires db.invoices[id].state == State.Draft
    ensures var inv, lines := db.invoices[id], db.lines[id];
            InvoiceOk(IssuedInvoice(db, cfg, inv, buyer, lines, now), TaxedLines(cfg, inv, buyer, lines, now),
                      rows + [PlainRow(id, State.Draft, Issued, Issue, now)])
  {
    hide Currency.OnGrid, Currency.Round, AmountsAddUp, Chained, PaidSum, Subtotals, TaxAmounts, AnyReview, NextNumber;
    var inv, lines := db.invoices[id], db.lines[id];
    DraftPaidNothing(rows, inv.total);
    IssueChains(rows, inv.total, id, now, IssuedInvoice(db, cfg, inv, buyer, lines, now).total);
    IssueTotals(db, cfg, inv, buyer, lines, now);
  }

  lemma DraftPaidNothing(rows: seq<Row>, total: real)
    requires Chained(rows, total) && rows[|rows| - 1].to == State.Draft
    ensures PaidSum(rows) == 0.0
  {
    DraftHasOneRow(rows, total);
  }

  lemma IssueKeeps(db: Db, cfg: T.Config, id: nat, env: Env)
    requires LedgerOk(db)
    ensures LedgerOk(IssueInvoice(db, cfg, id, env).0)
  {
    hide InvoiceOk, IssuedInvoice, TaxedLines, Taken, NextNumber;
    if IssueInvoice(db, cfg, id, env).1.Success? {
      assert InvoiceAt(db, id);
      var inv, lines, rows := db.invoices[id], db.lines[id], RowsOf(db.history, id);
      var buyer := db.customers[inv.customer];
      IssueOk(db, cfg, id, buyer, rows, env.now);
      IssueKeepsCustomer(db, cfg, inv, buyer, lines, env.now);
      AdvanceKeeps(db, id, IssuedInvoice(db, cfg, inv, buyer, lines, env.now),
                   TaxedLines(cfg, inv, buyer, lines, env.now), PlainRow(id, State.Draft, Issued, Issue, env.now));
    }
  }

  lemma IssueKeepsCustomer(db: Db, cfg: T.Config, inv: Invoice, buyer: T.Address, lines: seq<Line>, now: Instant)
    ensures IssuedInvoice(db, cfg, inv, buyer, lines, now).customer == inv.customer
  {
  }

  /**
   An issue that succeeds leaves the draft's subtotal standing, a total that is exactly subtotal plus tax
   and exactly the sum of the frozen lines, and within one minor unit per line of the exact amount due.
   */
  lemma IssueAgreesWithDraft(db: Db, cfg: T.Config, id: nat, env: Env)
    requires LedgerOk(db) && IssueInvoice(db, cfg, id, env).1.Success?
    ensures var db' := IssueInvoice(db, cfg, id, env).0;
            var was, inv := db.invoices[id], db'.invoices[id];
            && inv.subtotal == was.subtotal
            && inv.total == inv.subtotal + inv.taxTotal == LineTotals(LinesOf(db', id))
            && Abs(inv.currency.Minor(inv.total - ExactTotal(cfg, was, db.customers[was.customer], LinesOf(db, id), env.now)))
               <= |LinesOf(db, id)| as real
  {
    hide Currency.OnGrid, Currency.Round, Currency.Minor, ExactTotal, TaxedLines, Taken, NextNumber, Chained;
    assert InvoiceAt(db, id);
    var inv, lines := db.invoices[id], LinesOf(db, id);
    var buyer := db.customers[inv.customer];
    IssueTotals(db, cfg, inv, buyer, lines, env.now);
    IssueErrorBound(cfg, inv, buyer, lines, env.now);
  }

  lemma SendKeeps(db: Db, id: nat, uri: string, key: Option<string>, path: SendPath, env: Env)
    requires LedgerOk(db)
    ensures LedgerOk(SendInvoice(db, id, uri, key, path, env).0)
  {
    hide AmountsAddUp, Chained, RowsOf, PaidSum;
    var (db', r) := SendInvoice(db, id, uri, key, path, env);
    if r.Success? && !r.value.replay {
      assert InvoiceAt(db, id);
      var inv, dest := db.invoices[id], r.value.deliveredTo;
      var to := SendTarget(inv.state).value;
      StepKeeps(db, id, inv.(state := to, sentAt := Some(env.now)),
                PlainRow(id, inv.state, to, Send, env.now).(destination := Some(dest)));
      SameLedger(Advanced(db, id, inv.(state := to, sentAt := Some(env.now)),
                          PlainRow(id, inv.state, to, Send, env.now).(destination := Some(dest))), db');
    }
  }

  lemma ViewKeeps(db: Db, id: nat, env: Env)
    requires LedgerOk(db)
    ensures LedgerOk(ViewInvoice(db, id, env).0)
  {
    hide AmountsAddUp, Chained, RowsOf, PaidSum;
    if ViewInvoice(db, id, env).0 != db {
      assert InvoiceAt(db, id);
      StepKeeps(db, id, db.invoices[id].(state := Viewed, viewedAt := Some(env.now)),
                PlainRow(id, Sent, Viewed, View, env.now));
    }
  }

  lemma PayKeeps(db: Db, id: nat, amount: real, receivedAt: Option<Instant>, busEvent: Option<string>, env: Env)
    requires LedgerOk(db)
    ensures LedgerOk(MarkPaid(db, id, amount, receivedAt, busEvent, env).0)
  {
    hide AmountsAddUp, Chained, RowsOf, PaidSum;
    if MarkPaid(db, id, amount, receivedAt, busEvent, env).1.Success? {
      assert InvoiceAt(db, id);
      var inv := db.invoices[id];
      var paid := inv.amountPaid + amount;
      var to := NextState(inv.state, Pay(paid, inv.total)).value;
      var at := if receivedAt.Some? then receivedAt.value else env.now;
      StepKeeps(db, id,
                inv.(amountPaid := paid, state := to, paidAt := if to == Paid then Some(at) else inv.paidAt),
                PlainRow(id, inv.state, to, Pay(paid, inv.total), at).(amount := Some(amount), busEvent := busEvent));
    }
  }

  lemma VoidKeeps(db: Db, id: nat, env: Env)
    requires LedgerOk(db)
    ensures LedgerOk(VoidInvoice(db, id, env).0)
  {
    hide AmountsAddUp, Chained, RowsOf, PaidSum;
    if VoidInvoice(db, id, env).1.Success? {
      assert InvoiceAt(db, id);
      StepKeeps(db, id, db.invoices[id].(state := Voided, voidedAt := Some(env.now)),
                PlainRow(id, db.invoices[id].state, Voided, Void, env.now));
    }
  }

  /** The invariant reads only these tables. */
  lemma SameLedger(a: Db, b: Db)
    requires LedgerOk(a)
    requires a.invoices == b.invoices && a.lines == b.lines && a.history == b.history
    requires |a.customers| <= |b.customers|
    ensures LedgerOk(b)
  {
    forall id: nat | id < |b.invoices|
      ensures InvoiceAt(b, id)
    {
      assert InvoiceAt(a, id);
    }
  }
}
