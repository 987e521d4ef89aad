/** Safety over whole runs: the invariants of every reachable store, and what never changes once written. */
module Safety {
  import opened Wrappers
  import opened Calendar
  import opened Lifecycle
  import opened Tables
  import opened Ledger
  import opened Invariants
  import opened Outbox
  import opened Runs
  import opened Numbering
  import M = Money
  import Scheduler
  import Text
  import T = Tax

  // ---------------------------------------------------------------------------
  // Idempotency tables
  // ---------------------------------------------------------------------------

  /** No two invoices share an idempotency key. */
  ghost predicate KeysUnique(db: Db) {
    forall i, j :: 0 <= i < j < |db.invoices| && db.invoices[i].key.Some? ==> db.invoices[i].key != db.invoices[j].key
  }

  /** The record points at a send row of its own invoice that went to the same destination. */
  ghost predicate SendAt(db: Db, k: (nat, string))
    requires k in db.sends
  {
    var rec := db.sends[k];
    && k.0 < |db.invoices| && rec.historyId < |db.history|
    && var row := db.history[rec.historyId];
       row.invoice == k.0 && row.event == "send" && row.destination == Some(rec.deliveredTo)
  }

  /** Records are sound, and no send row answers for two of them. */
  ghost predicate SendsOk(db: Db) {
    && (forall k :: k in db.sends ==> SendAt(db, k))
    && (forall k, k' :: k in db.sends && k' in db.sends && db.sends[k].historyId == db.sends[k'].historyId ==> k == k')
  }

  // ---------------------------------------------------------------------------
  // What only grows
  // ---------------------------------------------------------------------------

  /** The same items at the same prices; only the tax on them may differ. */
  predicate SameItems(a: seq<Line>, b: seq<Line>) {
    && |a| == |b|
    && forall i :: 0 <= i < |a| ==>
         b[i] == a[i].(taxIds := b[i].taxIds, taxAmount := b[i].taxAmount, lineTotal := b[i].lineTotal)
  }

  /**
   Every invoice keeps its owner and its items and never steps back; an issued one keeps its number, totals and
   lines; a paid or voided one keeps everything.
   */
  predicate InvoiceGrows(a: Invoice, la: seq<Line>, b: Invoice, lb: seq<Line>) {
    && b.key == a.key && b.schedule == a.schedule && b.customer == a.customer
    && b.seller == a.seller && b.currency == a.currency && SameItems(la, lb)
    && (b.state == a.state || Rank(a.state) < Rank(b.state))
    && a.amountPaid <= b.amountPaid
    && (a.number.Some? ==> && b.number == a.number && b.issuedAt == a.issuedAt && b.review == a.review
                           && b.subtotal == a.subtotal && b.taxTotal == a.taxTotal && b.total == a.total
                           && lb == la)
    && (a.state == Paid || a.state == Voided ==> b == a)
  }

  ghost predicate Grows(a: Db, b: Db) {
    && |a.invoices| <= |b.invoices|
    && (forall id: nat :: id < |a.invoices| ==>
          InvoiceGrows(a.invoices[id], LinesOf(a, id), b.invoices[id], LinesOf(b, id)))
    && |a.customers| <= |b.customers|
    && a.history <= b.history && a.creditHistory <= b.creditHistory && a.bus <= b.bus
    && a.published <= b.published && a.creditPublished <= b.creditPublished
    && (forall k :: k in a.sends ==> k in b.sends && b.sends[k] == a.sends[k])
    && a.inbox.Keys <= b.inbox.Keys
  }

  lemma GrowsTransitive(a: Db, b: Db, c: Db)
    requires Grows(a, b) && Grows(b, c)
    ensures Grows(a, c)
  {
    forall id: nat | id < |a.invoices|
      ensures InvoiceGrows(a.invoices[id], LinesOf(a, id), c.invoices[id], LinesOf(c, id))
    {
      assert InvoiceGrows(b.invoices[id], LinesOf(b, id), c.invoices[id], LinesOf(c, id));
    }
  }

  lemma AdvanceGrows(db: Db, id: nat, inv: Invoice, lines: seq<Line>, row: Row)
    requires id < |db.invoices| && InvoiceGrows(db.invoices[id], LinesOf(db, id), inv, lines)
    ensures Grows(db, Advanced(db.(lines := db.lines[id := lines]), id, inv, row))
  {
    var db' := Advanced(db.(lines := db.lines[id := lines]), id, inv, row);
    forall i: nat | i < |db.invoices|
      ensures InvoiceGrows(db.invoices[i], LinesOf(db, i), db'.invoices[i], LinesOf(db', i))
    {
      if i != id {
        assert db'.invoices[i] == db.invoices[i] && LinesOf(db', i) == LinesOf(db, i);
      }
    }
  }

  /** The same for an update that leaves the lines where they are. */
  lemma StepGrows(db: Db, id: nat, inv: Invoice, row: Row)
    requires id < |db.invoices| && InvoiceGrows(db.invoices[id], LinesOf(db, id), inv, LinesOf(db, id))
    ensures Grows(db, Advanced(db, id, inv, row))
  {
    var db' := Advanced(db, id, inv, row);
    forall i: nat | i < |db.invoices|
      ensures InvoiceGrows(db.invoices[i], LinesOf(db, i), db'.invoices[i], LinesOf(db', i))
    {
    }
  }

  lemma AddGrows(db: Db, inv: Invoice, lines: seq<Line>, row: Row)
    ensures Grows(db, AddInvoice(db, inv, lines, row))
  {
  }

  lemma SameGrows(a: Db, b: Db)
    requires a.invoices == b.invoices && a.lines == b.lines && |a.customers| <= |b.customers|
    requires a.history <= b.history && a.creditHistory <= b.creditHistory && a.bus <= b.bus
    requires a.published <= b.published && a.creditPublished <= b.creditPublished
    requires a.sends == b.sends && a.inbox.Keys <= b.inbox.Keys
    ensures Grows(a, b)
  {
  }

  lemma IssueGrows(db: Db, cfg: T.Config, id: nat, env: Env)
    requires LedgerOk(db)
    ensures Grows(db, IssueInvoice(db, cfg, id, env).0)
  {
    hide AmountsAddUp, Chained, RowsOf, PaidSum, IssuedInvoice, TaxedLines;
    if IssueInvoice(db, cfg, id, env).1.Success? {
      assert InvoiceAt(db, id);
      var inv, lines := db.invoices[id], LinesOf(db, id);
      var buyer := db.customers[inv.customer];
      IssuedFields(db, cfg, inv, buyer, lines, env.now);
      TaxedItems(cfg, inv, buyer, lines, env.now);
      AdvanceGrows(db, id, IssuedInvoice(db, cfg, inv, buyer, lines, env.now),
                   TaxedLines(cfg, inv, buyer, lines, env.now), PlainRow(id, inv.state, Issued, Issue, env.now));
    } else {
      SameGrows(db, db);
    }
  }

  lemma {:induction false} TaxedItems(cfg: T.Config, inv: Invoice, buyer: T.Address, lines: seq<Line>, now: Instant)
    ensures SameItems(lines, TaxedLines(cfg, inv, buyer, lines, now))
  {
    hide LineTax, T.RecordedRows, M.Currency.Round;
    if lines != [] {
      TaxedItems(cfg, inv, buyer, lines[..|lines| - 1], now);
    }
  }

  lemma IssuedFields(db: Db, cfg: T.Config, inv: Invoice, buyer: T.Address, lines: seq<Line>, now: Instant)
    ensures var inv' := IssuedInvoice(db, cfg, inv, buyer, lines, now);
            inv' == inv.(state := Issued, number := Some(NextNumber("INV", InvoiceNumbers(db), now)), issuedAt := Some(now),
                         subtotal := inv'.subtotal, taxTotal := inv'.taxTotal, total := inv'.total, review := inv'.review)
  {
    hide NextNumber, TaxedLines, AnyReview, Subtotals, M.Currency.Round;
  }

  lemma SendGrows(db: Db, id: nat, uri: string, key: Option<string>, path: SendPath, env: Env)
    ensures Grows(db, SendInvoice(db, id, uri, key, path, env).0)
  {
    hide Scheme, LocalDestination, Text.Blank;
    var (db', r) := SendInvoice(db, id, uri, key, path, env);
    if r.Success? && !r.value.replay {
      var inv, dest := db.invoices[id], r.value.deliveredTo;
      var to := SendTarget(inv.state).value;
      var row := PlainRow(id, inv.state, to, Send, env.now).(destination := Some(dest));
      StepGrows(db, id, inv.(state := to, sentAt := Some(env.now)), row);
      assert key.Some? ==> (id, key.value) !in db.sends;
    } else {
      SameGrows(db, db);
    }
  }

  lemma PayGrows(db: Db, id: nat, amount: real, receivedAt: Option<Instant>, busEvent: Option<string>, env: Env)
    ensures Grows(db, MarkPaid(db, id, amount, receivedAt, busEvent, env).0)
  {
    if MarkPaid(db, id, amount, receivedAt, busEvent, env).1.Success? {
      var inv := db.invoices[id];
      var paid := inv.amountPaid + amount;
      var to := NextState(inv.state, Pay(paid, inv.total)).value;
      var at := if receivedAt.Some? then receivedAt.value else env.now;
      EdgesClimb(inv.state, Pay(paid, inv.total));
      StepGrows(db, id,
                inv.(amountPaid := paid, state := to, paidAt := if to == Paid then Some(at) else inv.paidAt),
                PlainRow(id, inv.state, to, Pay(paid, inv.total), at).(amount := Some(amount), busEvent := busEvent));
    } else {
      SameGrows(db, db);
    }
  }

  lemma ViewGrows(db: Db, id: nat, env: Env)
    ensures Grows(db, ViewInvoice(db, id, env).0)
  {
    if ViewInvoice(db, id, env).0 != db {
      StepGrows(db, id, db.invoices[id].(state := Viewed, viewedAt := Some(env.now)),
                PlainRow(id, Sent, Viewed, View, env.now));
    } else {
      SameGrows(db, db);
    }
  }

  lemma VoidGrows(db: Db, id: nat, env: Env)
    ensures Grows(db, VoidInvoice(db, id, env).0)
  {
    if VoidInvoice(db, id, env).1.Success? {
      StepGrows(db, id, db.invoices[id].(state := Voided, voidedAt := Some(env.now)),
                PlainRow(id, db.invoices[id].state, Voided, Void, env.now));
    } else {
      SameGrows(db, db);
    }
  }

  lemma DraftGrows(db: Db, input: DraftInput, env: Env)
    ensures Grows(db, DraftInvoice(db, input, env).0)
  {
    hide DraftedLines, DraftedInvoice, ValidDraft;
    if DraftInvoice(db, input, env).0 != db {
      AddGrows(db, DraftedInvoice(input), DraftedLines(input.currency, input.lines), DraftRow(|db.invoices|, env.now));
    } else {
      SameGrows(db, db);
    }
  }

  lemma RelayGrows(db: Db, limit: int, faults: nat -> Fault)
    ensures Grows(db, Relay(db, limit, faults).db)
  {
    RelayOnlyAdds(db, limit, faults);
    SameGrows(db, Relay(db, limit, faults).db);
  }

  lemma {:induction false} DrainOnlyAdds(p: Pass, t: Table, ids: seq<nat>, faults: nat -> Fault)
    ensures OnlyAdds(p.db, Drain(p, t, ids, faults).db)
    decreases |ids|
  {
    hide Messages, PublishAll;
    if ids != [] {
      var messages := Messages(p.db, t, ids[0]);
      PublishOnlyAdds(p, messages, faults);
      var sent := PublishAll(p, messages, faults);
      if sent.ok {
        var marked := MarkPublished(sent, t, ids[0], faults);
        if marked.ok {
          DrainOnlyAdds(marked, t, ids[1..], faults);
        }
      }
    }
  }

  predicate OnlyAdds(a: Db, b: Db) {
    SameTables(a, b) && a.bus <= b.bus && a.published <= b.published && a.creditPublished <= b.creditPublished
  }

  lemma {:induction false} PublishOnlyAdds(p: Pass, messages: seq<Message>, faults: nat -> Fault)
    ensures OnlyAdds(p.db, PublishAll(p, messages, faults).db)
    decreases |messages|
  {
    if messages != [] && faults(p.op) == Fine {
      var sent := p.(db := p.db.(bus := p.db.bus + [messages[0]]), op := p.op + 1);
      PublishOnlyAdds(sent.(events := p.events + 1), messages[1..], faults);
    }
  }

  lemma RelayOnlyAdds(db: Db, limit: int, faults: nat -> Fault)
    ensures OnlyAdds(db, Relay(db, limit, faults).db)
  {
    hide Pending, Drain;
    var start := Pass(db, 0, 0, 0, true);
    DrainOnlyAdds(start.(op := 1), InvoiceTable, Pending(db, InvoiceTable, limit), faults);
    var first := DrainTable(start, InvoiceTable, limit, faults);
    DrainOnlyAdds(first.(op := first.op + 1), CreditTable, Pending(first.db, CreditTable, limit), faults);
  }

  lemma DoGrows(db: Db, s: Step)
    requires LedgerOk(db)
    ensures Grows(db, Do(db, s))
  {
    hide DraftInvoice, IssueInvoice, SendInvoice, ViewInvoice, MarkPaid, VoidInvoice, Relay, LedgerOk, Grows;
    hide CreateCreditNote, IssueCreditNote;
    match s {
      case DraftStep(input, env) => DraftGrows(db, input, env);
      case IssueStep(cfg, id, env) => IssueGrows(db, cfg, id, env);
      case SendStep(id, uri, key, path, env) => SendGrows(db, id, uri, key, path, env);
      case ViewStep(id, env) => ViewGrows(db, id, env);
      case PayStep(id, amount, receivedAt, busEvent, env) => PayGrows(db, id, amount, receivedAt, busEvent, env);
      case VoidStep(id, env) => VoidGrows(db, id, env);
      case RelayStep(limit, faults) => RelayGrows(db, limit, faults);
      case CreditStep(id, amount, refundRef, env) => CreditGrows(db, id, amount, refundRef, env);
      case IssueCreditStep(note, env) => IssueCreditGrows(db, note, env);
      case _ => SameGrows(db, Do(db, s));
    }
  }

  lemma CreditGrows(db: Db, id: nat, amount: real, refundRef: Option<string>, env: Env)
    ensures Grows(db, CreateCreditNote(db, id, amount, refundRef, env).0)
  {
    SameGrows(db, CreateCreditNote(db, id, amount, refundRef, env).0);
  }

  lemma IssueCreditGrows(db: Db, note: nat, env: Env)
    ensures Grows(db, IssueCreditNote(db, note, env).0)
  {
    hide NextNumber, Taken;
    SameGrows(db, IssueCreditNote(db, note, env).0);
  }

  // ---------------------------------------------------------------------------
  // The invariants of one transaction
  // ---------------------------------------------------------------------------

  lemma DoKeepsLedger(db: Db, s: Step)
    requires LedgerOk(db)
    ensures LedgerOk(Do(db, s))
  {
    hide DraftInvoice, IssueInvoice, SendInvoice, ViewInvoice, MarkPaid, VoidInvoice, Relay, LedgerOk;
    hide CreateCreditNote, IssueCreditNote;
    match s {
      case DraftStep(input, env) => DraftKeeps(db, input, env);
      case IssueStep(cfg, id, env) => IssueKeeps(db, cfg, id, env);
      case SendStep(id, uri, key, path, env) => SendKeeps(db, id, uri, key, path, env);
      case ViewStep(id, env) => ViewKeeps(db, id, env);
      case PayStep(id, amount, receivedAt, busEvent, env) => PayKeeps(db, id, amount, receivedAt, busEvent, env);
      case VoidStep(id, env) => VoidKeeps(db, id, env);
      case RelayStep(limit, faults) =>
        RelayOnlyAdds(db, limit, faults);
        SameLedger(db, Do(db, s));
      case CreditStep(id, amount, refundRef, env) =>
        CreditTouchesOnlyCredit(db, id, amount, refundRef, env);
        SameLedger(db, Do(db, s));
      case IssueCreditStep(note, env) =>
        IssueCreditTouchesOnlyCredit(db, note, env);
        SameLedger(db, Do(db, s));
      case _ => SameLedger(db, Do(db, s));
    }
  }

  predicate OnlyCredit(a: Db, b: Db) {
    b == a.(creditNotes := b.creditNotes, creditHistory := b.creditHistory) && a.creditHistory <= b.creditHistory
  }

  lemma CreditTouchesOnlyCredit(db: Db, id: nat, amount: real, refundRef: Option<string>, env: Env)
    ensures OnlyCredit(db, CreateCreditNote(db, id, amount, refundRef, env).0)
  {
  }

  lemma IssueCreditTouchesOnlyCredit(db: Db, note: nat, env: Env)
    ensures OnlyCredit(db, IssueCreditNote(db, note, env).0)
  {
    hide NextNumber, Taken;
  }

  lemma SameKeys(a: Db, b: Db)
    requires KeysUnique(a) && Grows(a, b) && |b.invoices| == |a.invoices|
    ensures KeysUnique(b)
  {
    forall id: nat | id < |a.invoices|
      ensures b.invoices[id].key == a.invoices[id].key
    {
      assert InvoiceGrows(a.invoices[id], LinesOf(a, id), b.invoices[id], LinesOf(b, id));
    }
  }

  /** Only a draft adds invoices, and it adds one. */
  lemma OnlyDraftsAdd(db: Db, s: Step)
    ensures !s.DraftStep? ==> |Do(db, s).invoices| == |db.invoices|
  {
    hide TaxedLines, IssuedInvoice, NextNumber, Taken, Scheme, LocalDestination, Relay;
    if s.RelayStep? {
      RelayOnlyAdds(db, s.limit, s.faults);
    }
  }

  lemma DoKeepsKeys(db: Db, s: Step)
    requires LedgerOk(db) && KeysUnique(db)
    ensures KeysUnique(Do(db, s))
  {
    hide Do, LedgerOk, Grows;
    DoGrows(db, s);
    OnlyDraftsAdd(db, s);
    if s.DraftStep? {
      DraftKeepsKeys(db, s);
    } else {
      SameKeys(db, Do(db, s));
    }
  }

  lemma DraftKeepsKeys(db: Db, s: Step)
    requires KeysUnique(db) && s.DraftStep?
    ensures KeysUnique(Do(db, s))
  {
    hide DraftedLines, ValidDraft, M.Currency.Round, Subtotals;
  }

  lemma SameSends(a: Db, b: Db)
    requires SendsOk(a) && b.sends == a.sends && a.history <= b.history && |a.invoices| <= |b.invoices|
    ensures SendsOk(b)
  {
    forall k | k in b.sends
      ensures SendAt(b, k)
    {
      assert SendAt(a, k);
    }
  }

  /** Only a send adds records. */
  lemma OnlySendsRecord(db: Db, s: Step)
    ensures !s.SendStep? ==> Do(db, s).sends == db.sends
  {
    hide TaxedLines, IssuedInvoice, NextNumber, Taken, Relay, DraftedLines, DraftedInvoice;
    if s.RelayStep? {
      RelayOnlyAdds(db, s.limit, s.faults);
    }
  }

  lemma DoKeepsSends(db: Db, s: Step)
    requires LedgerOk(db) && SendsOk(db)
    ensures SendsOk(Do(db, s))
  {
    hide Do, LedgerOk, SendsOk, InvoiceGrows;
    DoGrows(db, s);
    OnlySendsRecord(db, s);
    if s.SendStep? {
      SendKeepsSends(db, s.id, s.uri, s.key, s.path, s.env);
      assert Do(db, s) == SendInvoice(db, s.id, s.uri, s.key, s.path, s.env).0 by {
        DoSend(db, s);
      }
    } else {
      SameSends(db, Do(db, s));
    }
  }

  lemma DoSend(db: Db, s: Step)
    requires s.SendStep?
    ensures Do(db, s) == SendInvoice(db, s.id, s.uri, s.key, s.path, s.env).0
  {
    hide SendInvoice;
  }

  lemma SendKeepsSends(db: Db, id: nat, uri: string, key: Option<string>, path: SendPath, env: Env)
    requires SendsOk(db)
    ensures SendsOk(SendInvoice(db, id, uri, key, path, env).0)
  {
    hide Scheme, LocalDestination, Text.Blank, SendTarget, SendsOk, SentDb;
    var (db', r) := SendInvoice(db, id, uri, key, path, env);
    if r.Success? && !r.value.replay {
      SentKeepsSends(db, id, SendTarget(db.invoices[id].state).value, r.value.deliveredTo, key, env.now);
    }
  }

  lemma SentKeepsSends(db: Db, id: nat, to: State, dest: string, key: Option<string>, now: Instant)
    requires SendsOk(db) && id < |db.invoices|
    ensures SendsOk(SentDb(db, id, to, dest, key, now))
  {
    var db' := SentDb(db, id, to, dest, key, now);
    forall k | k in db'.sends
      ensures SendAt(db', k)
    {
      if k in db.sends && db'.sends[k] == db.sends[k] {
        assert SendAt(db, k);
      }
    }
    forall k, k' | k in db'.sends && k' in db'.sends && db'.sends[k].historyId == db'.sends[k'].historyId
      ensures k == k'
    {
      assert k in db.sends ==> SendAt(db, k);
      assert k' in db.sends ==> SendAt(db, k');
    }
  }

  lemma SameBus(a: Db, b: Db)
    requires BusOk(a) && HistoryGrows(a, b)
    requires a.bus == b.bus && a.published == b.published && a.creditPublished == b.creditPublished
    ensures BusOk(b)
  {
    hide Explains;
    var chunks: seq<Chunk> :| Explains(chunks, a);
    ExplainsStable(a, b, chunks);
  }

  /** Only the relay publishes. */
  lemma OnlyRelayPublishes(db: Db, s: Step)
    ensures !s.RelayStep? ==> SameOutlet(db, Do(db, s))
  {
    hide DraftInvoice, IssueInvoice, SendInvoice, MarkPaid, Relay;
    match s {
      case DraftStep(input, env) => Scheduler.DraftFrame(db, input, env);
      case IssueStep(cfg, id, env) => Scheduler.IssueFrame(db, cfg, id, env);
      case SendStep(id, uri, key, path, env) => SendFrame(db, id, uri, key, path, env);
      case PayStep(id, amount, receivedAt, busEvent, env) => PayFrame(db, id, amount, receivedAt, busEvent, env);
      case IssueCreditStep(note, env) => IssueCreditTouchesOnlyCredit(db, note, env);
      case _ =>
    }
  }

  predicate SameOutlet(a: Db, b: Db) {
    b.bus == a.bus && b.published == a.published && b.creditPublished == a.creditPublished
  }

  lemma SendFrame(db: Db, id: nat, uri: string, key: Option<string>, path: SendPath, env: Env)
    ensures SameOutlet(db, SendInvoice(db, id, uri, key, path, env).0)
  {
    hide Scheme, LocalDestination, Text.Blank, SendTarget;
  }

  lemma PayFrame(db: Db, id: nat, amount: real, receivedAt: Option<Instant>, busEvent: Option<string>, env: Env)
    ensures SameOutlet(db, MarkPaid(db, id, amount, receivedAt, busEvent, env).0)
  {
  }

  lemma DoKeepsBus(db: Db, s: Step)
    requires LedgerOk(db) && BusOk(db)
    ensures BusOk(Do(db, s))
  {
    hide Do, LedgerOk, BusOk, InvoiceGrows;
    DoGrows(db, s);
    OnlyRelayPublishes(db, s);
    if s.RelayStep? {
      RelayExplained(db, s.limit, s.faults);
      DoRelay(db, s);
    } else {
      SameBus(db, Do(db, s));
    }
  }

  lemma DoRelay(db: Db, s: Step)
    requires s.RelayStep?
    ensures Do(db, s) == Relay(db, s.limit, s.faults).db
  {
    hide Relay;
  }

  // ---------------------------------------------------------------------------
  // Every run
  // ---------------------------------------------------------------------------

  /** What holds of every reachable store. */
  ghost predicate Inv(db: Db) {
    LedgerOk(db) && KeysUnique(db) && SendsOk(db) && BusOk(db)
  }

  lemma EmptyInv()
    ensures Inv(EMPTY)
  {
    assert Explains([], EMPTY);
  }

  lemma {:induction false} DoAllKeeps(db: Db, steps: seq<Step>)
    requires Inv(db)
    ensures Inv(DoAll(db, steps)) && Grows(db, DoAll(db, steps))
    decreases |steps|
  {
    hide LedgerOk, KeysUnique, SendsOk, BusOk, Do, Grows;
    if steps == [] {
      SameGrows(db, db);
    } else {
      var db' := Do(db, steps[0]);
      DoKeepsLedger(db, steps[0]);
      DoKeepsKeys(db, steps[0]);
      DoKeepsSends(db, steps[0]);
      DoKeepsBus(db, steps[0]);
      DoGrows(db, steps[0]);
      DoAllKeeps(db', steps[1..]);
      GrowsTransitive(db, db', DoAll(db, steps));
    }
  }

  /** Every run of calls, with any failures, keeps the invariants and only adds to what was written. */
  lemma {:induction false} RunKeeps(db: Db, calls: seq<Call>)
    requires Inv(db)
    ensures Inv(RunCalls(db, calls)) && Grows(db, RunCalls(db, calls))
    decreases |calls|
  {
    hide Inv, Grows, Apply;
    if calls == [] {
      SameGrows(db, db);
    } else {
      var db' := Apply(db, calls[0]);
      var steps := CallIsSteps(db, calls[0]);
      DoAllKeeps(db, steps);
      RunKeeps(db', calls[1..]);
      GrowsTransitive(db, db', RunCalls(db, calls));
    }
  }

  // ---------------------------------------------------------------------------
  // The headline properties of every reachable store
  // ---------------------------------------------------------------------------

  ghost predicate Reachable(db: Db) {
    exists calls: seq<Call> :: db == RunCalls(EMPTY, calls)
  }

  lemma ReachableInv(db: Db)
    requires Reachable(db)
    ensures Inv(db)
  {
    hide Inv;
    var calls: seq<Call> :| db == RunCalls(EMPTY, calls);
    EmptyInv();
    RunKeeps(EMPTY, calls);
  }

  /**
   Row `k` continues from the row before it: the resend of a sent invoice, or the edge of the table for
   the row's own event, where a payment counts all that was paid up to and with this row.
   */
  ghost predicate Follows(rows: seq<Row>, k: nat, total: real)
    requires 0 < k < |rows|
  {
    var event := EventOf(rows[k], PaidSum(rows[..k + 1]), total);
    && rows[k].from == Some(rows[k - 1].to)
    && (IsResend(rows[k - 1].to, rows[k])
        || (&& event.Some? && Tag(event.value) == rows[k].event
            && NextState(rows[k - 1].to, event.value) == Success(rows[k].to)))
  }

  lemma LinkFollows(rows: seq<Row>, k: nat, total: real)
    requires 0 < k < |rows| && Link(rows[k - 1].to, rows[k], PaidSum(rows[..k + 1]), total)
    ensures Follows(rows, k, total)
  {
    hide PaidSum, NextState;
  }

  /**
   The history of every invoice starts with `None -> Draft`, each later row follows the one before
   it, and the last row ends in the stored state and carries its stamp.
   */
  lemma HistoryIsFaithful(db: Db, id: nat)
    requires Reachable(db) && id < |db.invoices|
    ensures var rows, inv := RowsOf(db.history, id), db.invoices[id];
            && rows != [] && rows[0].from == None && rows[0].to == State.Draft
            && (forall k :: 0 < k < |rows| ==> Follows(rows, k, inv.total))
            && rows[|rows| - 1].to == inv.state
            && StampsMatch(inv, rows[|rows| - 1])
  {
    hide Reachable, KeysUnique, SendsOk, BusOk, TotalsAddUp, PaidMatchesState, Follows, Link, RowsOf;
    var rows, total := RowsOf(db.history, id), db.invoices[id].total;
    ReachableLedger(db);
    assert InvoiceAt(db, id);
    ChainAt(rows, total, 0);
    forall k | 0 < k < |rows|
      ensures Follows(rows, k, total)
    {
      ChainAt(rows, total, k);
      LinkFollows(rows, k, total);
    }
  }

  lemma ReachableLedger(db: Db)
    requires Reachable(db)
    ensures LedgerOk(db) && KeysUnique(db) && SendsOk(db) && BusOk(db)
  {
    hide LedgerOk, KeysUnique, SendsOk, BusOk, Reachable;
    ReachableInv(db);
  }

  /** Money: what is paid is what the pay rows say, within what the state allows, and the totals add up. */
  lemma MoneyIsConserved(db: Db, id: nat)
    requires Reachable(db) && id < |db.invoices|
    ensures var inv, lines := db.invoices[id], LinesOf(db, id);
            && inv.amountPaid == PaidSum(RowsOf(db.history, id))
            && (inv.state in {State.Draft, Issued, Sent, Viewed} ==> inv.amountPaid == 0.0)
            && (inv.state == PartiallyPaid ==> 0.0 < inv.amountPaid < inv.total)
            && (inv.state == Paid ==> inv.amountPaid >= inv.total && inv.amountPaid > 0.0)
            && (inv.state == Voided ==> inv.amountPaid == 0.0 || 0.0 < inv.amountPaid < inv.total)
            && inv.subtotal + inv.taxTotal == inv.total == LineTotals(lines)
            && inv.subtotal == Subtotals(inv.currency, lines) && inv.taxTotal == TaxAmounts(lines)
  {
    hide Reachable, KeysUnique, SendsOk, BusOk, Chained, StampsMatch;
    ReachableLedger(db);
    assert InvoiceAt(db, id);
  }

  /** Once issued, an invoice's number, totals and lines survive every later run; once paid or voided, all of it does. */
  lemma IssuedIsFrozen(db: Db, calls: seq<Call>, id: nat)
    requires Inv(db) && id < |db.invoices| && db.invoices[id].number.Some?
    ensures var db' := RunCalls(db, calls);
            && id < |db'.invoices| && LinesOf(db', id) == LinesOf(db, id)
            && var a, b := db.invoices[id], db'.invoices[id];
               && b.number == a.number && b.issuedAt == a.issuedAt
               && b.subtotal == a.subtotal && b.taxTotal == a.taxTotal && b.total == a.total
               && (a.state == Paid || a.state == Voided ==> b == a)
  {
    hide Inv, RunCalls;
    RunKeeps(db, calls);
    var db' := RunCalls(db, calls);
    assert InvoiceGrows(db.invoices[id], LinesOf(db, id), db'.invoices[id], LinesOf(db', id));
  }

  /** The state of an invoice moves at most five times in its life. */
  lemma AtMostFiveMoves(db: Db, id: nat)
    requires Reachable(db) && id < |db.invoices|
    ensures MoveCount(RowsOf(db.history, id)) <= 5
  {
    hide Reachable, KeysUnique, SendsOk, BusOk, TotalsAddUp, PaidMatchesState, Chained, MoveCount;
    ReachableLedger(db);
    assert InvoiceAt(db, id);
    MovesWithinRank(RowsOf(db.history, id), db.invoices[id].total);
  }

  /** Over a run an invoice stays in its state or reaches one of a higher rank. */
  lemma StatesOnlyClimb(db: Db, calls: seq<Call>, id: nat)
    requires Inv(db) && id < |db.invoices|
    ensures var db' := RunCalls(db, calls);
            && id < |db'.invoices|
            && (db'.invoices[id].state == db.invoices[id].state
                || Rank(db.invoices[id].state) < Rank(db'.invoices[id].state))
  {
    hide Inv, RunCalls;
    RunKeeps(db, calls);
    var db' := RunCalls(db, calls);
    assert InvoiceGrows(db.invoices[id], LinesOf(db, id), db'.invoices[id], LinesOf(db', id));
  }

  // ---------------------------------------------------------------------------
  // Replays
  // ---------------------------------------------------------------------------

  /** A destination the path accepts: any text for the caller's own transport, a file or stdout for the local sink. */
  predicate WellAddressed(uri: string, path: SendPath) {
    !Text.Blank(uri) && (path == LocalSink ==> Scheme(uri) == "file" || Scheme(uri) == "stdout")
  }

  /**
   After a keyed send succeeded, any later send of that invoice under that key leaves the store as it
   is, whatever happened in between and whatever it asks for. It answers with the first destination
   exactly when its own request is well formed and the page renders.
   */
  lemma KeyedSendReplays(db: Db, id: nat, uri: string, key: string, path: SendPath, env: Env, calls: seq<Call>,
                         uri': string, path': SendPath, env': Env)
    requires Inv(db) && SendInvoice(db, id, uri, Some(key), path, env).1.Success?
    ensures var sent, first := SendInvoice(db, id, uri, Some(key), path, env).0,
                               SendInvoice(db, id, uri, Some(key), path, env).1.value.deliveredTo;
            var later := RunCalls(sent, calls);
            var (after, r) := SendInvoice(later, id, uri', Some(key), path', env');
            && after == later
            && (r.Success? ==> r.value == SendOutput(id, first, true))
            && (r.Success? <==> WellAddressed(uri', path') && env'.renders)
  {
    hide RunCalls, SendInvoice, LedgerOk, KeysUnique, SendsOk, BusOk;
    var (sent, r) := SendInvoice(db, id, uri, Some(key), path, env);
    SendRecorded(db, id, uri, key, path, env);
    SendInv(db, id, uri, Some(key), path, env);
    RunKeeps(sent, calls);
    var later := RunCalls(sent, calls);
    assert later.sends[(id, key)] == sent.sends[(id, key)];
    RecordedSendReplays(later, id, uri', key, path', env');
  }

  lemma RecordedSendReplays(db: Db, id: nat, uri: string, key: string, path: SendPath, env: Env)
    requires LedgerOk(db) && SendsOk(db) && (id, key) in db.sends
    ensures var (after, r) := SendInvoice(db, id, uri, Some(key), path, env);
            && after == db
            && (r.Success? ==> r.value == SendOutput(id, db.sends[(id, key)].deliveredTo, true))
            && (r.Success? <==> WellAddressed(uri, path) && env.renders)
  {
    hide Scheme, LocalDestination, Text.Blank, SendFresh, InvoiceOk;
    assert SendAt(db, (id, key));
    assert InvoiceAt(db, id);
  }

  lemma SendRecorded(db: Db, id: nat, uri: string, key: string, path: SendPath, env: Env)
    requires SendInvoice(db, id, uri, Some(key), path, env).1.Success?
    ensures var (sent, r) := SendInvoice(db, id, uri, Some(key), path, env);
            (id, key) in sent.sends && sent.sends[(id, key)].deliveredTo == r.value.deliveredTo
  {
    hide Scheme, LocalDestination, Text.Blank, SendTarget;
  }

  lemma SendInv(db: Db, id: nat, uri: string, key: Option<string>, path: SendPath, env: Env)
    requires Inv(db)
    ensures Inv(SendInvoice(db, id, uri, key, path, env).0)
  {
    hide Do, Inv;
    var s := SendStep(id, uri, key, path, env);
    DoSend(db, s);
    OneStep(db, s);
    DoAllKeeps(db, [s]);
  }

  /** The same for drafts: one key names one invoice for ever, and asking again writes nothing. */
  lemma KeyedDraftReplays(db: Db, input: DraftInput, env: Env, calls: seq<Call>, input': DraftInput, env': Env)
    requires Inv(db) && input.key.Some? && input'.key == input.key
    requires DraftInvoice(db, input, env).1.Success?
    ensures var drafted, id := DraftInvoice(db, input, env).0, DraftInvoice(db, input, env).1.value.invoice;
            var later := RunCalls(drafted, calls);
            var (after, r) := DraftInvoice(later, input', env');
            && after == later
            && r == (if ValidDraft(input') then Success(DraftOutput(id, true)) else Failure(Validation))
            && forall i :: 0 <= i < |later.invoices| && later.invoices[i].key == input.key ==> i == id
  {
    hide RunCalls, ValidDraft, DraftedLines, M.Currency.Round, LedgerOk, SendsOk, BusOk;
    var (drafted, r) := DraftInvoice(db, input, env);
    var id := r.value.invoice;
    DraftInv(db, input, env);
    RunKeeps(drafted, calls);
    var later := RunCalls(drafted, calls);
    assert id < |drafted.invoices| && drafted.invoices[id].key == input.key;
    assert InvoiceGrows(drafted.invoices[id], LinesOf(drafted, id), later.invoices[id], LinesOf(later, id));
    assert later.invoices[id].key == input.key;
  }

  lemma DraftInv(db: Db, input: DraftInput, env: Env)
    requires Inv(db)
    ensures Inv(DraftInvoice(db, input, env).0)
  {
    hide DraftInvoice, Inv;
    var s := DraftStep(input, env);
    OneStep(db, s);
    DoAllKeeps(db, [s]);
  }
}
