/**
 The commands as they run: each loads rows, works on local copies, and commits one transaction.
 Every method is proved to do to the tables what its function in Ledger, Scheduler, Outbox or Inbox
 says, so all that is proved of those functions holds of these methods
 (crates/commands/src, crates/api/src/handlers/view.rs, crates/bus/src, crates/store/src/repo).
 */
module Commands {
  import opened Wrappers
  import opened Calendar
  import opened Text
  import opened Money
  import opened Lifecycle
  import opened Cadences
  import opened Tables
  import opened Numbering
  import opened Sorting
  import L = Ledger
  import S = Scheduler
  import O = Outbox
  import N = Inbox
  import T = Tax

  class Store {
    var customers: seq<T.Address>
    var invoices: seq<Invoice>
    var lines: map<nat, seq<Line>>
    var history: seq<Row>
    var published: set<nat>
    var sends: map<(nat, string), SendRecord>
    var creditNotes: seq<CreditNote>
    var creditHistory: seq<CreditRow>
    var creditPublished: set<nat>
    var inbox: map<string, bool>
    var schedules: seq<Schedule>
    var bus: seq<Message>

    function Contents(): Db
      reads this
    {
      Db(customers, invoices, lines, history, published, sends, creditNotes, creditHistory, creditPublished,
         inbox, schedules, bus)
    }

    constructor ()
      ensures Contents() == EMPTY
    {
      customers, invoices, lines, history, published, sends := [], [], map[], [], {}, map[];
      creditNotes, creditHistory, creditPublished, inbox, schedules, bus := [], [], {}, map[], [], [];
    }

    // -------------------------------------------------------------------------
    // Draft
    // -------------------------------------------------------------------------

    /** `DraftInvoiceInput::validate`: the line loop stops at the first bad line. */
    static method ValidateDraft(input: L.DraftInput) returns (ok: bool)
      ensures ok == L.ValidDraft(input)
    {
      if input.lines == [] {
        return false;
      }
      var code := input.currency.code;
      if code != "USD" && code != "CAD" && code != "DZD" {
        return false;
      }
      for i := 0 to |input.lines|
        invariant forall l :: l in input.lines[..i] ==> L.ValidLine(l)
      {
        var l := input.lines[i];
        if Blank(l.description) || l.quantity <= 0.0 || l.unitPrice < 0.0 {
          assert !L.ValidLine(l) && l in input.lines;
          return false;
        }
        assert input.lines[..i + 1] == input.lines[..i] + [l];
      }
      assert input.lines[..|input.lines|] == input.lines;
      return true;
    }

    /** The line loop: rounded line subtotals, accumulated. */
    static method DraftLines(c: Currency, input: seq<DraftLine>) returns (drafted: seq<Line>, subtotal: real)
      ensures drafted == L.DraftedLines(c, input)
      ensures subtotal == L.Subtotals(c, drafted)
    {
      drafted, subtotal := [], 0.0;
      for i := 0 to |input|
        invariant drafted == L.DraftedLines(c, input[..i])
        invariant subtotal == L.Subtotals(c, drafted)
      {
        var l := input[i];
        var rounded := c.Round(l.quantity * l.unitPrice);
        var line := Line(l.description, l.quantity, l.unitPrice, l.category, [], 0.0, rounded);
        assert input[..i + 1][..i] == input[..i];
        assert (drafted + [line])[..|drafted|] == drafted;
        subtotal := subtotal + rounded;
        drafted := drafted + [line];
      }
      assert input[..|input|] == input;
    }

    method DraftInvoice(input: L.DraftInput, env: L.Env) returns (r: Result<L.DraftOutput, L.Error>)
      modifies `invoices, `lines, `history
      ensures (Contents(), r) == L.DraftInvoice(old(Contents()), input, env)
    {
      var valid := ValidateDraft(input);
      if !valid {
        return Failure(L.Validation);
      }
      if input.key.Some? {
        var existing := FindKey(invoices, input.key.value);
        if existing.Some? {
          return Success(L.DraftOutput(existing.value, true));
        }
      }
      var drafted, subtotal := DraftLines(input.currency, input.lines);
      subtotal := input.currency.Round(subtotal);
      var id := |invoices|;
      var invoice := Invoice(None, input.customer, input.seller, input.currency, State.Draft,
                             None, None, None, None, None,
                             subtotal, 0.0, subtotal, 0.0, input.schedule, input.key, false);
      var row := Row(id, None, State.Draft, "draft", env.now, None, None, None);
      if input.customer >= |customers| || !env.commits {
        return Failure(L.Repo);
      }
      invoices := invoices + [invoice];
      lines := lines[id := drafted];
      history := history + [row];
      return Success(L.DraftOutput(id, false));
    }

    // -------------------------------------------------------------------------
    // Issue
    // -------------------------------------------------------------------------

    /** One line of the tax loop: the line with its tax frozen, its rounded subtotal, and the review flag. */
    static method TaxLine(cfg: T.Config, inv: Invoice, buyer: T.Address, l: Line, now: Instant)
      returns (r: Result<(Line, real, bool), T.TaxError>)
      ensures r.Failure? <==> buyer.country == ""
      ensures r.Failure? ==> r.error == T.InvalidBuyerCountry(buyer.country)
      ensures r.Success? ==>
                && r.value.0 == L.TaxedLine(cfg, inv, buyer, l, now)
                && r.value.1 == inv.currency.Round(L.Base(l))
                && r.value.2 == T.NeedsReview(cfg, inv.seller, buyer, l.category, L.NO_FIGURES)
    {
      hide T.ExactTax, T.RecordedRows, T.NeedsReview, Currency.Round;
      var c, base := inv.currency, l.quantity * l.unitPrice;
      assert base == L.Base(l);
      var resolved := T.ResolveTax(cfg, inv.seller, buyer, l.category, base, c, L.NO_FIGURES, now.date);
      if resolved.Failure? {
        return Failure(resolved.error);
      }
      var subtotal := c.Round(base);
      var taxed := l.(taxIds := resolved.value.ids);
      taxed := taxed.(taxAmount := resolved.value.amount);
      taxed := taxed.(lineTotal := c.Round(subtotal + resolved.value.amount));
      return Success((taxed, subtotal, resolved.value.review));
    }

    /** The tax loop of `issue_invoice`, rewriting the lines in place and accumulating the sums. */
    static method TaxLines(cfg: T.Config, inv: Invoice, buyer: T.Address, drafted: seq<Line>, now: Instant)
      returns (r: Result<(seq<Line>, real, real, bool), T.TaxError>)
      ensures r.Failure? <==> drafted != [] && buyer.country == ""
      ensures r.Failure? ==> r.error == T.InvalidBuyerCountry(buyer.country)
      ensures r.Success? ==>
                && r.value.0 == L.TaxedLines(cfg, inv, buyer, drafted, now)
                && r.value.1 == L.Subtotals(inv.currency, drafted)
                && r.value.2 == L.TaxAmounts(r.value.0)
                && r.value.3 == L.AnyReview(cfg, inv, buyer, drafted)
    {
      hide L.TaxedLine, L.TaxedLines, L.Subtotals, L.TaxAmounts, L.AnyReview, L.Base, T.NeedsReview, Currency.Round;
      NoLines(cfg, inv, buyer, now);
      assert drafted[..0] == [];
      var lines, subtotal, taxTotal, review := drafted, 0.0, 0.0, false;
      for i := 0 to |drafted|
        invariant |lines| == |drafted|
        invariant forall j :: i <= j < |drafted| ==> lines[j] == drafted[j]
        invariant lines[..i] == L.TaxedLines(cfg, inv, buyer, drafted[..i], now)
        invariant subtotal == L.Subtotals(inv.currency, drafted[..i])
        invariant taxTotal == L.TaxAmounts(lines[..i])
        invariant review == L.AnyReview(cfg, inv, buyer, drafted[..i])
        invariant i > 0 ==> buyer.country != ""
      {
        var resolved := TaxLine(cfg, inv, buyer, lines[i], now);
        if resolved.Failure? {
          return Failure(resolved.error);
        }
        var (line, lineSubtotal, needsReview) := resolved.value;
        OneMoreLine(cfg, inv, buyer, drafted, lines[..i], i, now);
        ghost var done := lines[..i];
        lines := lines[i := line];
        assert lines[..i + 1] == done + [line];
        subtotal := subtotal + lineSubtotal;
        taxTotal := taxTotal + line.taxAmount;
        review := review || needsReview;
      }
      assert drafted[..|drafted|] == drafted && lines[..|drafted|] == lines;
      return Success((lines, subtotal, taxTotal, review));
    }

    method IssueInvoice(cfg: T.Config, id: nat, env: L.Env) returns (r: Result<nat, L.Error>)
      modifies `invoices, `lines, `history
      ensures (Contents(), r) == L.IssueInvoice(old(Contents()), cfg, id, env)
    {
      hide L.TaxedLines, L.AnyReview, NextNumber, Taken, Currency.Round;
      if id >= |invoices| {
        return Failure(L.NotFound);
      }
      var invoice := invoices[id];
      var drafted := LinesOf(Contents(), id);
      var from := invoice.state;
      var next := NextState(from, Issue);
      if next.Failure? {
        return Failure(L.Fsm(next.error));
      }
      if invoice.customer >= |customers| {
        return Failure(L.NotFound);
      }
      var buyer := customers[invoice.customer];
      var resolved := TaxLines(cfg, invoice, buyer, drafted, env.now);
      if resolved.Failure? {
        return Failure(L.TaxFailed(resolved.error));
      }
      var (taxed, subtotal, taxTotal, review) := resolved.value;
      subtotal := invoice.currency.Round(subtotal);
      taxTotal := invoice.currency.Round(taxTotal);
      var total := invoice.currency.Round(subtotal + taxTotal);
      var number := NextNumber("INV", L.InvoiceNumbers(Contents()), env.now);

      invoice := invoice.(state := next.value, number := Some(number), issuedAt := Some(env.now));
      invoice := invoice.(subtotal := subtotal, taxTotal := taxTotal, total := total, review := review);
      if !env.renders {
        return Failure(L.Render);
      }
      var row := Row(id, Some(from), next.value, Tag(Issue), env.now, None, None, None);
      if Taken(L.InvoiceNumbers(Contents()), number) || !env.commits {
        return Failure(L.Repo);
      }
      invoices := invoices[id := invoice];
      lines := lines[id := taxed];
      history := history + [row];
      return Success(id);
    }

    // -------------------------------------------------------------------------
    // Send
    // -------------------------------------------------------------------------

    method TryReplay(id: nat, key: string, env: L.Env) returns (r: Option<Result<L.SendOutput, L.Error>>)
      ensures r == if (id, key) in sends then Some(L.Replay(Contents(), id, key, env)) else None
    {
      if (id, key) !in sends {
        return None;
      }
      var record := sends[(id, key)];
      if id >= |invoices| {
        return Some(Failure(L.NotFound));
      }
      if invoices[id].customer >= |customers| {
        return Some(Failure(L.NotFound));
      }
      if !env.renders {
        return Some(Failure(L.Render));
      }
      return Some(Success(L.SendOutput(id, record.deliveredTo, true)));
    }

    /** The state to move to; no writes. A failure here is the whole send's failure. */
    method PrepareSend(id: nat, env: L.Env) returns (r: Result<State, L.Error>)
      ensures r.Success? <==> && id < |invoices| && L.SendTarget(invoices[id].state).Success?
                              && invoices[id].customer < |customers| && env.renders
      ensures r.Success? ==> L.SendTarget(invoices[id].state) == Success(r.value)
      ensures r.Failure? ==> forall uri, key, path ::
                L.SendFresh(Contents(), id, uri, key, path, env) == (Contents(), Failure(r.error))
    {
      if id >= |invoices| {
        return Failure(L.NotFound);
      }
      var from := invoices[id].state;
      var to: State;
      match from {
        case Issued | Viewed =>
          var next := NextState(from, Send);
          if next.Failure? {
            return Failure(L.Fsm(next.error));
          }
          to := next.value;
        case Sent =>
          to := Sent;
        case _ =>
          return Failure(L.Fsm(Illegal(from, "send")));
      }
      if invoices[id].customer >= |customers| {
        return Failure(L.NotFound);
      }
      if !env.renders {
        return Failure(L.Render);
      }
      return Success(to);
    }

    method FinalizeSend(id: nat, to: State, dest: string, key: Option<string>, env: L.Env)
      returns (r: Result<L.SendOutput, L.Error>)
      requires id < |invoices|
      modifies `invoices, `history, `sends
      ensures Contents() == if env.commits then L.SentDb(old(Contents()), id, to, dest, key, env.now) else old(Contents())
      ensures r == if env.commits then Success(L.SendOutput(id, dest, false)) else Failure(L.Repo)
    {
      var invoice := invoices[id];
      var from := invoice.state;
      invoice := invoice.(state := to);
      invoice := invoice.(sentAt := Some(env.now));
      var row := Row(id, Some(from), to, Tag(Send), env.now, None, Some(dest), None);
      if !env.commits {
        return Failure(L.Repo);
      }
      invoices := invoices[id := invoice];
      history := history + [row];
      if key.Some? {
        sends := sends[(id, key.value) := SendRecord(|history| - 1, dest)];
      }
      return Success(L.SendOutput(id, dest, false));
    }

    /** `send_invoice`, or `send_invoice_render` when delivery is the caller's. */
    method SendInvoice(id: nat, uri: string, key: Option<string>, path: L.SendPath, env: L.Env)
      returns (r: Result<L.SendOutput, L.Error>)
      modifies `invoices, `history, `sends
      ensures (Contents(), r) == L.SendInvoice(old(Contents()), id, uri, key, path, env)
    {
      hide L.Scheme, L.LocalDestination, Blank, L.SendTarget, L.Replay, L.SentDb;
      if Blank(uri) {
        return Failure(L.Validation);
      }
      if path == L.LocalSink {
        var scheme := L.Scheme(uri);
        if scheme in ["bus", "webhook", "link"] {
          return Failure(L.NotImplemented);
        }
        if scheme !in ["file", "stdout"] {
          return Failure(L.Validation);
        }
      }
      if key.Some? {
        var replay := TryReplay(id, key.value, env);
        if replay.Some? {
          return replay.value;
        }
      }
      var prepared := PrepareSend(id, env);
      if prepared.Failure? {
        return Failure(prepared.error);
      }
      var dest := uri;
      if path == L.LocalSink {
        var local := L.LocalDestination(uri);
        if local.None? || !env.delivers {
          return Failure(L.Validation);
        }
        dest := local.value;
      }
      r := FinalizeSend(id, prepared.value, dest, key, env);
    }

    // -------------------------------------------------------------------------
    // View, pay, void
    // -------------------------------------------------------------------------

    method ViewInvoice(id: nat, env: L.Env) returns (r: Result<nat, L.Error>)
      modifies `invoices, `history
      ensures (Contents(), r) == L.ViewInvoice(old(Contents()), id, env)
    {
      if id >= |invoices| || invoices[id].customer >= |customers| {
        return Failure(L.NotFound);
      }
      if !env.renders {
        return Failure(L.Render);
      }
      var invoice := invoices[id];
      if invoice.state == Sent {
        var from := invoice.state;
        invoice := invoice.(state := Viewed);
        invoice := invoice.(viewedAt := Some(env.now));
        var row := Row(id, Some(from), Viewed, "view", env.now, None, None, None);
        if !env.commits {
          return Failure(L.Repo);
        }
        invoices := invoices[id := invoice];
        history := history + [row];
      }
      return Success(id);
    }

    method MarkPaid(id: nat, amount: real, receivedAt: Option<Instant>, busEvent: Option<string>, env: L.Env)
      returns (r: Result<bool, L.Error>)
      modifies `invoices, `history
      ensures (Contents(), r) == L.MarkPaid(old(Contents()), id, amount, receivedAt, busEvent, env)
    {
      if amount <= 0.0 {
        return Failure(L.Validation);
      }
      if id >= |invoices| {
        return Failure(L.NotFound);
      }
      var invoice := invoices[id];
      var paid := invoice.amountPaid + amount;
      var from := invoice.state;
      var event := Pay(paid, invoice.total);
      var next := NextState(from, event);
      if next.Failure? {
        return Failure(L.Fsm(next.error));
      }
      var fullyPaid := next.value == Paid;
      var now := if receivedAt.Some? then receivedAt.value else env.now;
      invoice := invoice.(amountPaid := paid);
      invoice := invoice.(state := next.value);
      if fullyPaid {
        invoice := invoice.(paidAt := Some(now));
      }
      var row := Row(id, Some(from), next.value, Tag(event), now, Some(amount), None, busEvent);
      if !env.commits {
        return Failure(L.Repo);
      }
      invoices := invoices[id := invoice];
      history := history + [row];
      return Success(fullyPaid);
    }

    method VoidInvoice(id: nat, env: L.Env) returns (r: Result<nat, L.Error>)
      modifies `invoices, `history
      ensures (Contents(), r) == L.VoidInvoice(old(Contents()), id, env)
    {
      if id >= |invoices| {
        return Failure(L.NotFound);
      }
      var invoice := invoices[id];
      var from := invoice.state;
      var next := NextState(from, Void);
      if next.Failure? {
        return Failure(L.Fsm(next.error));
      }
      invoice := invoice.(state := next.value);
      invoice := invoice.(voidedAt := Some(env.now));
      var row := Row(id, Some(from), next.value, Tag(Void), env.now, None, None, None);
      if !env.commits {
        return Failure(L.Repo);
      }
      invoices := invoices[id := invoice];
      history := history + [row];
      return Success(id);
    }

    // -------------------------------------------------------------------------
    // Credit notes
    // -------------------------------------------------------------------------

    method CreateCreditNote(invoice: nat, amount: real, refundRef: Option<string>, env: L.Env)
      returns (r: Result<nat, L.Error>)
      modifies `creditNotes, `creditHistory
      ensures (Contents(), r) == L.CreateCreditNote(old(Contents()), invoice, amount, refundRef, env)
    {
      if amount <= 0.0 {
        return Failure(L.Validation);
      }
      if invoice >= |invoices| {
        return Failure(L.NotFound);
      }
      var c := invoices[invoice].currency;
      var id := |creditNotes|;
      var note := CreditNote(None, invoice, CreditDraft, c.Round(amount), c, refundRef, None);
      var row := CreditRow(id, None, CreditDraft, "draft", env.now, refundRef);
      if !env.commits {
        return Failure(L.Repo);
      }
      creditNotes := creditNotes + [note];
      creditHistory := creditHistory + [row];
      return Success(id);
    }

    method IssueCreditNote(id: nat, env: L.Env) returns (r: Result<nat, L.Error>)
      modifies `creditNotes, `creditHistory
      ensures (Contents(), r) == L.IssueCreditNote(old(Contents()), id, env)
    {
      hide NextNumber, Taken;
      if id >= |creditNotes| {
        return Failure(L.NotFound);
      }
      var note := creditNotes[id];
      if note.state != CreditDraft {
        return Failure(L.Validation);
      }
      var from := note.state;
      var number := NextNumber("CN", L.CreditNumbers(Contents()), env.now);
      note := note.(state := CreditIssued);
      note := note.(number := Some(number));
      note := note.(issuedAt := Some(env.now));
      var row := CreditRow(id, Some(from), CreditIssued, "issue", env.now, None);
      if Taken(L.CreditNumbers(Contents()), number) || !env.commits {
        return Failure(L.Repo);
      }
      creditNotes := creditNotes[id := note];
      creditHistory := creditHistory + [row];
      return Success(id);
    }

    // -------------------------------------------------------------------------
    // Schedules
    // -------------------------------------------------------------------------

    method CreateSchedule(input: S.ScheduleInput, env: L.Env) returns (r: Result<nat, L.Error>)
      modifies `schedules
      ensures (Contents(), r) == S.CreateSchedule(old(Contents()), input, env)
    {
      if !S.ValidSchedule(input) {
        return Failure(L.Validation);
      }
      var schedule := Schedule(input.customer, input.lines, input.currency, input.cadence, input.start, input.end,
                               input.autoIssue, input.start, None, Active);
      if input.customer >= |customers| || !env.commits {
        return Failure(L.Repo);
      }
      schedules := schedules + [schedule];
      return Success(|schedules| - 1);
    }

    method TransitionSchedule(id: nat, to: ScheduleState, env: L.Env) returns (r: Result<nat, L.Error>)
      modifies `schedules
      ensures (Contents(), r) == S.ChangeState(old(Contents()), id, to, env)
    {
      if id >= |schedules| {
        return Failure(L.NotFound);
      }
      var schedule := schedules[id];
      if schedule.state == Cancelled && to != Cancelled {
        return Failure(L.Validation);
      }
      schedule := schedule.(state := to);
      if !env.commits {
        return Failure(L.Repo);
      }
      schedules := schedules[id := schedule];
      return Success(id);
    }

    /** One pass of the tick loop's body, on the row read before the loop. */
    method RunSchedule(cfg: T.Config, id: nat, row: Schedule, turn: S.Turn) returns (ok: bool)
      requires id < |schedules| && schedules[id] == row
      modifies `invoices, `lines, `history, `schedules
      ensures (Contents(), ok) == S.RunOne(old(Contents()), cfg, id, turn)
    {
      hide L.DraftInvoice, L.IssueInvoice, Advance, S.RunKey;
      var schedule := row;
      var input := L.DraftInput(schedule.customer, T.QuebecCa, schedule.currency, schedule.lines,
                                Some(S.RunKey(id, schedule.nextRun)), Some(id));
      var drafted := DraftInvoice(input, turn.draft);
      if drafted.Failure? {
        return false;
      }
      if schedule.autoIssue {
        var issued := IssueInvoice(cfg, drafted.value.invoice, turn.issue);
        if issued.Failure? {
          return false;
        }
      }
      schedule := schedule.(lastRun := Some(schedule.nextRun));
      var next := AdvanceRun(schedule.cadence, schedule.nextRun);
      schedule := schedule.(nextRun := next);
      if schedule.end.Some? && DateBefore(schedule.end.value, next) {
        schedule := schedule.(state := Cancelled);
      }
      if !turn.saves {
        return false;
      }
      schedules := schedules[id := schedule];
      return true;
    }

    /** `schedules_tick`: the due rows are read once, then taken one by one until something fails. */
    method SchedulesTick(cfg: T.Config, today: Day, turns: nat -> S.Turn) returns (ran: seq<nat>, ok: bool)
      modifies `invoices, `lines, `history, `schedules
      ensures (Contents(), |ran|, ok) == S.Tick(old(Contents()), cfg, today, turns)
      ensures ran <= S.Due(old(schedules), today)
    {
      hide S.RunOne, S.RunAll, S.Due, S.DueText, Sorted;
      var due := S.Due(schedules, today);
      S.DueInRange(schedules, today);
      var table := schedules;
      var rows := seq(|due|, i requires 0 <= i < |due| => table[due[i]]);
      ghost var start := Contents();
      ran := [];
      for i := 0 to |due|
        invariant |schedules| == |start.schedules| && ran == due[..i]
        invariant forall j :: i <= j < |due| ==> schedules[due[j]] == rows[j]
        invariant S.RunAll(start, cfg, due, turns, 0) == S.RunAll(Contents(), cfg, due[i..], turns, i)
      {
        ghost var before := Contents();
        ok := RunSchedule(cfg, due[i], rows[i], turns(i));
        OneTurn(before, cfg, due[i], turns(i));
        TurnUnfolds(before, cfg, due, i, turns, Contents(), ok);
        if !ok {
          return ran, false;
        }
        assert due[..i + 1] == due[..i] + [due[i]];
        ran := ran + [due[i]];
      }
      assert S.RunAll(Contents(), cfg, [], turns, |due|) == (Contents(), |due|, true) by {
        NoTurns(Contents(), cfg, turns, |due|);
      }
      assert due[|due|..] == [] && due[..|due|] == due && due[0..] == due;
      return ran, true;
    }

    // -------------------------------------------------------------------------
    // The outbox relay
    // -------------------------------------------------------------------------

    method PublishAll(messages: seq<Message>, op: nat, faults: nat -> O.Fault, rows: nat, events: nat)
      returns (op': nat, events': nat, ok: bool)
      modifies `bus
      ensures O.Pass(Contents(), op', rows, events', ok)
           == O.PublishAll(O.Pass(old(Contents()), op, rows, events, true), messages, faults)
    {
      op', events' := op, events;
      ghost var start := O.Pass(Contents(), op, rows, events, true);
      for i := 0 to |messages|
        invariant O.PublishAll(start, messages, faults)
               == O.PublishAll(O.Pass(Contents(), op', rows, events', true), messages[i..], faults)
      {
        assert messages[i..][0] == messages[i] && messages[i..][1..] == messages[i + 1..];
        var fault := faults(op');
        op' := op' + 1;
        if fault != O.Lost {
          bus := bus + [messages[i]];
        }
        if fault != O.Fine {
          return op', events', false;
        }
        events' := events' + 1;
      }
      return op', events', true;
    }

    method MarkPublished(t: O.Table, id: nat)
      modifies `published, `creditPublished
      ensures Contents() == O.Marked(old(Contents()), t, id)
    {
      if t == O.InvoiceTable {
        published := published + {id};
      } else {
        creditPublished := creditPublished + {id};
      }
    }

    /** The loop over one history table: publish the row's messages, then mark the row. */
    method DrainTable(t: O.Table, limit: int, faults: nat -> O.Fault, op: nat, rows: nat, events: nat)
      returns (op': nat, rows': nat, events': nat, ok: bool)
      modifies `bus, `published, `creditPublished
      ensures O.Pass(Contents(), op', rows', events', ok)
           == O.DrainTable(O.Pass(old(Contents()), op, rows, events, true), t, limit, faults)
    {
      hide O.PublishAll, O.Messages, O.Pending;
      op', rows', events' := op + 1, rows, events;
      if faults(op) != O.Fine {
        return op', rows', events', false;
      }
      var pending := O.Pending(Contents(), t, limit);
      ghost var start := O.Pass(Contents(), op', rows, events, true);
      for i := 0 to |pending|
        invariant O.Drain(start, t, pending, faults)
               == O.Drain(O.Pass(Contents(), op', rows', events', true), t, pending[i..], faults)
      {
        assert pending[i..][0] == pending[i] && pending[i..][1..] == pending[i + 1..];
        var messages := O.Messages(Contents(), t, pending[i]);
        op', events', ok := PublishAll(messages, op', faults, rows', events');
        if !ok {
          return op', rows', events', false;
        }
        var fault := faults(op');
        op' := op' + 1;
        if fault != O.Lost {
          MarkPublished(t, pending[i]);
        }
        if fault != O.Fine {
          return op', rows', events', false;
        }
        rows' := rows' + 1;
      }
      return op', rows', events', true;
    }

    /** `run_outbox_relay`, with the counters of `OutboxStats`. */
    method RunOutboxRelay(limit: int, faults: nat -> O.Fault) returns (rows: nat, events: nat, ok: bool)
      modifies `bus, `published, `creditPublished
      ensures var pass := O.Relay(old(Contents()), limit, faults);
              Contents() == pass.db && rows == pass.rows && events == pass.events && ok == pass.ok
    {
      hide O.DrainTable;
      var op: nat;
      op, rows, events, ok := DrainTable(O.InvoiceTable, limit, faults, 0, 0, 0);
      if ok {
        op, rows, events, ok := DrainTable(O.CreditTable, limit, faults, op, rows, events);
      }
    }

    // -------------------------------------------------------------------------
    // The inbox
    // -------------------------------------------------------------------------

    /** `try_insert`: `None` when the store fails, otherwise whether the event is new. */
    method TryInsert(eventId: string, inserts: bool) returns (r: Option<bool>)
      modifies `inbox
      ensures inbox == if eventId in old(inbox) || !inserts then old(inbox) else old(inbox)[eventId := false]
      ensures r == if eventId in old(inbox) then Some(false) else if inserts then Some(true) else None
    {
      if eventId in inbox {
        return Some(false);
      }
      if !inserts {
        return None;
      }
      inbox := inbox[eventId := false];
      return Some(true);
    }

    /** `mark_processed`: an update, so an unknown id changes nothing. */
    method MarkProcessed(eventId: string)
      modifies `inbox
      ensures inbox == if eventId in old(inbox) then old(inbox)[eventId := true] else old(inbox)
    {
      if eventId in inbox {
        inbox := inbox[eventId := true];
      }
    }

    method Dispatch(d: N.Delivery) returns (ok: bool)
      modifies `invoices, `lines, `history, `creditNotes, `creditHistory
      ensures (Contents(), ok) == N.Dispatch(old(Contents()), d)
    {
      hide L.DraftInvoice, L.MarkPaid, L.CreateCreditNote;
      match d.payload {
        case ChargeCreated(customer, _, _, _, _) =>
          if customer.None? {
            return false;
          }
          var r := DraftInvoice(N.ChargeInput(d), d.env);
          return r.Success?;
        case PaymentReceived(ref, amount, receivedAt) =>
          if ref.None? {
            return false;
          }
          var r := MarkPaid(ref.value, amount, Some(receivedAt), Some(d.eventId), d.env);
          return r.Success?;
        case PaymentRefunded(ref, refund, refundId) =>
          if ref.None? {
            return false;
          }
          var refundRef := if refundId.Some? then refundId.value else d.eventId;
          var r := CreateCreditNote(ref.value, refund, Some(refundRef), d.env);
          return r.Success?;
        case Unroutable =>
          return false;
      }
    }

    /** Insert, dispatch what is new, and mark what succeeded. */
    method Receive(d: N.Delivery)
      modifies this
      ensures Contents() == N.Receive(old(Contents()), d)
    {
      hide N.Dispatch;
      var isNew := TryInsert(d.eventId, d.inserts);
      if isNew != Some(true) || !d.survives {
        return;
      }
      ghost var received := Contents();
      var ok := Dispatch(d);
      N.DispatchKeepsInbox(received, d);
      if ok {
        MarkProcessed(d.eventId);
      }
    }
  }

  lemma NoLines(cfg: T.Config, inv: Invoice, buyer: T.Address, now: Instant)
    ensures L.TaxedLines(cfg, inv, buyer, [], now) == [] && L.Subtotals(inv.currency, []) == 0.0
    ensures L.TaxAmounts([]) == 0.0 && !L.AnyReview(cfg, inv, buyer, [])
  {
  }

  /** What one more line adds to the taxed lines, to the sums and to the review flag. */
  lemma OneMoreLine(cfg: T.Config, inv: Invoice, buyer: T.Address, lines: seq<Line>, taxed: seq<Line>, i: nat, now: Instant)
    requires i < |lines|
    ensures var l, line := lines[i], L.TaxedLine(cfg, inv, buyer, lines[i], now);
            && L.TaxedLines(cfg, inv, buyer, lines[..i + 1], now) == L.TaxedLines(cfg, inv, buyer, lines[..i], now) + [line]
            && L.Subtotals(inv.currency, lines[..i + 1])
               == L.Subtotals(inv.currency, lines[..i]) + inv.currency.Round(L.Base(l))
            && L.TaxAmounts(taxed + [line]) == L.TaxAmounts(taxed) + line.taxAmount
            && L.AnyReview(cfg, inv, buyer, lines[..i + 1])
               == (L.AnyReview(cfg, inv, buyer, lines[..i])
                   || T.NeedsReview(cfg, inv.seller, buyer, l.category, L.NO_FIGURES))
  {
    hide L.TaxedLine, L.Base, T.NeedsReview, Currency.Round, L.AnyReview;
    assert lines[..i + 1] == lines[..i] + [lines[i]];
    TakeLast(lines[..i], lines[i]);
    TakeLast(taxed, L.TaxedLine(cfg, inv, buyer, lines[i], now));
    OneMoreReview(cfg, inv, buyer, lines, i);
  }

  lemma OneMoreReview(cfg: T.Config, inv: Invoice, buyer: T.Address, lines: seq<Line>, i: nat)
    requires i < |lines|
    ensures L.AnyReview(cfg, inv, buyer, lines[..i + 1])
         == (L.AnyReview(cfg, inv, buyer, lines[..i])
             || T.NeedsReview(cfg, inv.seller, buyer, lines[i].category, L.NO_FIGURES))
  {
    hide T.NeedsReview;
    assert forall j :: 0 <= j < i ==> lines[..i + 1][j] == lines[..i][j];
    assert lines[..i + 1][i] == lines[i];
  }

  lemma TakeLast<X>(s: seq<X>, x: X)
    ensures (s + [x])[..|s + [x]| - 1] == s && (s + [x])[|s + [x]| - 1] == x
  {
  }

  lemma OneTurn(db: Db, cfg: T.Config, id: nat, turn: S.Turn)
    requires id < |db.schedules|
    ensures var db' := S.RunOne(db, cfg, id, turn).0;
            && |db'.schedules| == |db.schedules|
            && forall i :: 0 <= i < |db.schedules| && i != id ==> db'.schedules[i] == db.schedules[i]
  {
    hide S.Materialise;
    S.MaterialiseFrame(db, cfg, id, db.schedules[id], turn);
  }

  lemma NoTurns(db: Db, cfg: T.Config, turns: nat -> S.Turn, ran: nat)
    ensures S.RunAll(db, cfg, [], turns, ran) == (db, ran, true)
  {
  }

  lemma TurnUnfolds(db: Db, cfg: T.Config, due: seq<nat>, i: nat, turns: nat -> S.Turn, db': Db, ok: bool)
    requires i < |due| && forall j :: 0 <= j < |due| ==> due[j] < |db.schedules|
    requires S.RunOne(db, cfg, due[i], turns(i)) == (db', ok) && |db'.schedules| == |db.schedules|
    ensures S.RunAll(db, cfg, due[i..], turns, i)
         == if ok then S.RunAll(db', cfg, due[i + 1..], turns, i + 1) else (db', i, false)
  {
    hide S.RunOne;
    assert due[i..][0] == due[i] && due[i..][1..] == due[i + 1..];
  }
}
