/**
 Credit notes over whole runs (crates/commands/src/credit.rs, crates/bus/src/outbox.rs): each is for its
 invoice's currency, its history is its draft and then at most its issue, and the relay announces both.
 */
module CreditRuns {
  import opened Wrappers
  import opened Tables
  import opened Ledger
  import opened Invariants
  import opened Outbox
  import opened Numbering
  import opened Runs
  import opened Safety
  import opened NumberRuns
  import opened Answers
  import M = Money
  import Scheduler

  /** The history of one credit note, in insertion order. */
  function RowsOfNote(history: seq<CreditRow>, note: nat): seq<CreditRow> {
    if history == [] then []
    else
      var n := |history| - 1;
      RowsOfNote(history[..n], note) + (if history[n].note == note then [history[n]] else [])
  }

  lemma RowsOfNoteAppend(history: seq<CreditRow>, row: CreditRow, note: nat)
    ensures RowsOfNote(history + [row], note) == RowsOfNote(history, note) + (if row.note == note then [row] else [])
  {
    assert (history + [row])[..|history|] == history;
  }

  lemma {:induction false} NoRowsOfNewNote(history: seq<CreditRow>, note: nat)
    requires forall k :: 0 <= k < |history| ==> history[k].note != note
    ensures RowsOfNote(history, note) == []
  {
    if history != [] {
      NoRowsOfNewNote(history[..|history| - 1], note);
    }
  }

  predicate IsDraftRow(r: CreditRow) {
    r.from == None && r.to == CreditDraft && r.event == "draft"
  }

  predicate IsIssueRow(r: CreditRow) {
    r.from == Some(CreditDraft) && r.to == CreditIssued && r.event == "issue"
  }

  /** Its draft row, and once it is issued the issue row at its stamp. */
  predicate NoteChained(note: CreditNote, rows: seq<CreditRow>) {
    && |rows| == (if note.state == CreditDraft then 1 else 2)
    && IsDraftRow(rows[0])
    && (note.state == CreditDraft ==> note.issuedAt == None && note.number == None)
    && (note.state == CreditIssued ==> IsIssueRow(rows[1]) && note.issuedAt == Some(rows[1].occurredAt) && note.number.Some?)
  }

  predicate NoteOk(note: CreditNote, invoices: seq<Invoice>, rows: seq<CreditRow>) {
    && note.invoice < |invoices| && note.currency == invoices[note.invoice].currency
    && note.currency.OnGrid(note.amount)
    && NoteChained(note, rows)
  }

  ghost predicate NoteAt(db: Db, i: nat)
    requires i < |db.creditNotes|
  {
    NoteOk(db.creditNotes[i], db.invoices, RowsOfNote(db.creditHistory, i))
  }

  ghost predicate NotesOk(db: Db) {
    && (forall i: nat :: i < |db.creditNotes| ==> NoteAt(db, i))
    && (forall k :: 0 <= k < |db.creditHistory| ==> IsNoteRow(db.creditHistory[k], |db.creditNotes|))
  }

  predicate IsNoteRow(r: CreditRow, notes: nat) {
    r.note < notes && (IsDraftRow(r) || IsIssueRow(r))
  }

  // ---------------------------------------------------------------------------
  // Transactions
  // ---------------------------------------------------------------------------

  lemma SameNotes(a: Db, b: Db)
    requires NotesOk(a) && Grows(a, b)
    requires b.creditNotes == a.creditNotes && b.creditHistory == a.creditHistory
    ensures NotesOk(b)
  {
    hide NoteChained, RowsOfNote, M.Currency.OnGrid;
    forall i: nat | i < |b.creditNotes|
      ensures NoteAt(b, i)
    {
      assert NoteAt(a, i);
      var invoice := a.creditNotes[i].invoice;
      assert InvoiceGrows(a.invoices[invoice], LinesOf(a, invoice), b.invoices[invoice], LinesOf(b, invoice));
    }
  }

  lemma NewNoteKeeps(db: Db, invoice: nat, amount: real, refundRef: Option<string>, env: Env)
    requires NotesOk(db)
    ensures NotesOk(CreateCreditNote(db, invoice, amount, refundRef, env).0)
  {
    hide CreateCreditNote, RowsOfNote, M.Currency.OnGrid, M.Currency.Minor;
    var (db', r) := CreateCreditNote(db, invoice, amount, refundRef, env);
    CreditAnswers(db, invoice, amount, refundRef, env);
    if r.Success? {
      CreditRecords(db, invoice, amount, refundRef, env);
      var n := |db.creditNotes|;
      var row := CreditRow(n, None, CreditDraft, "draft", env.now, refundRef);
      forall i: nat | i < |db'.creditNotes|
        ensures NoteAt(db', i)
      {
        RowsOfNoteAppend(db.creditHistory, row, i);
        if i < n {
          assert NoteAt(db, i) && db'.creditNotes[i] == db'.creditNotes[..n][i];
        } else {
          NoRowsOfNewNote(db.creditHistory, n);
          assert [] + [row] == [row];
        }
      }
    }
  }

  lemma IssuedNoteKeeps(db: Db, id: nat, env: Env)
    requires NotesOk(db)
    ensures NotesOk(IssueCreditNote(db, id, env).0)
  {
    hide IssueCreditNote, RowsOfNote, M.Currency.OnGrid, Taken, NextNumber;
    var (db', r) := IssueCreditNote(db, id, env);
    IssueCreditAnswers(db, id, env);
    if r.Success? {
      var row := CreditRow(id, Some(CreditDraft), CreditIssued, "issue", env.now, None);
      forall i: nat | i < |db'.creditNotes|
        ensures NoteAt(db', i)
      {
        RowsOfNoteAppend(db.creditHistory, row, i);
        assert NoteAt(db, i);
      }
    }
  }

  /** Only the two credit commands write the credit tables. */
  lemma OthersLeaveNotes(db: Db, s: Step)
    requires !s.CreditStep? && !s.IssueCreditStep?
    ensures Do(db, s).creditNotes == db.creditNotes && Do(db, s).creditHistory == db.creditHistory
  {
    hide IssueInvoice, DraftInvoice, SendInvoice, MarkPaid, Relay;
    match s {
      case RelayStep(limit, faults) => RelayOnlyAdds(db, limit, faults);
      case IssueStep(cfg, id, env) => Scheduler.IssueFrame(db, cfg, id, env);
      case DraftStep(input, env) => Scheduler.DraftFrame(db, input, env);
      case SendStep(id, uri, key, path, env) => SendLeavesNotes(db, s);
      case PayStep(id, amount, receivedAt, busEvent, env) => PayLeavesNotes(db, s);
      case _ =>
    }
  }

  lemma SendLeavesNotes(db: Db, s: Step)
    requires s.SendStep?
    ensures var db' := SendInvoice(db, s.id, s.uri, s.key, s.path, s.env).0;
            db'.creditNotes == db.creditNotes && db'.creditHistory == db.creditHistory
  {
    hide Scheme, LocalDestination, SendTarget;
  }

  lemma PayLeavesNotes(db: Db, s: Step)
    requires s.PayStep?
    ensures var db' := MarkPaid(db, s.id, s.amount, s.receivedAt, s.busEvent, s.env).0;
            db'.creditNotes == db.creditNotes && db'.creditHistory == db.creditHistory
  {
  }

  lemma StepKeepsNotes(db: Db, s: Step)
    requires LedgerOk(db) && NotesOk(db)
    ensures NotesOk(Do(db, s))
  {
    hide LedgerOk, NotesOk, Grows, CreateCreditNote, IssueCreditNote, IssueInvoice, DraftInvoice, SendInvoice, MarkPaid,
         Relay;
    match s {
      case CreditStep(invoice, amount, refundRef, env) => NewNoteKeeps(db, invoice, amount, refundRef, env);
      case IssueCreditStep(note, env) => IssuedNoteKeeps(db, note, env);
      case _ =>
        DoGrows(db, s);
        OthersLeaveNotes(db, s);
        SameNotes(db, Do(db, s));
    }
  }

  lemma {:induction false} StepsKeepNotes(db: Db, steps: seq<Step>)
    requires Inv(db) && NotesOk(db)
    ensures NotesOk(DoAll(db, steps))
    decreases |steps|
  {
    hide Do, Inv, LedgerOk, NotesOk;
    if steps != [] {
      InvAfterStep(db, steps[0]);
      StepKeepsNotes(db, steps[0]);
      StepsKeepNotes(Do(db, steps[0]), steps[1..]);
    }
  }

  lemma {:induction false} RunKeepsNotes(db: Db, calls: seq<Call>)
    requires Inv(db) && NotesOk(db)
    ensures NotesOk(RunCalls(db, calls))
    decreases |calls|
  {
    hide Inv, NotesOk, Apply, DoAll;
    if calls != [] {
      var steps := CallIsSteps(db, calls[0]);
      StepsKeepNotes(db, steps);
      DoAllKeeps(db, steps);
      RunKeepsNotes(Apply(db, calls[0]), calls[1..]);
    }
  }

  /**
   In every run each credit note is in its invoice's currency, of whole minor units, and has a history of
   its draft and, exactly when it is issued, its issue at the stamp it carries.
   */
  lemma CreditNotesAreSound(calls: seq<Call>, i: nat)
    requires i < |RunCalls(EMPTY, calls).creditNotes|
    ensures var db := RunCalls(EMPTY, calls);
            NoteOk(db.creditNotes[i], db.invoices, RowsOfNote(db.creditHistory, i))
  {
    hide Inv, RunCalls, NoteOk;
    EmptyInv();
    RunKeepsNotes(EMPTY, calls);
    assert NoteAt(RunCalls(EMPTY, calls), i);
  }

  // ---------------------------------------------------------------------------
  // What the relay says of them
  // ---------------------------------------------------------------------------

  /** The draft is announced by one message and the issue by four. */
  predicate Announced(r: CreditRow) {
    || (IsDraftRow(r)
        && CreditMessages(r) == [CreditDomain("inv.billing.creditnote.drafted", r.note, None, CreditDraft, "draft", r.occurredAt)])
    || (IsIssueRow(r)
        && CreditMessages(r) == [CreditProposed(r.note, CreditDraft, CreditIssued, r.occurredAt),
                                 CreditTransitioned(r.note, CreditDraft, CreditIssued, r.occurredAt),
                                 CreditEntered(r.note, CreditIssued, r.occurredAt),
                                 CreditDomain("inv.billing.creditnote.issued", r.note, Some(CreditDraft), CreditIssued, "issue",
                                              r.occurredAt)])
  }

  lemma NoteRowIsAnnounced(r: CreditRow)
    requires IsDraftRow(r) || IsIssueRow(r)
    ensures Announced(r)
  {
  }

  lemma CreditRowsAreAnnounced(calls: seq<Call>, k: nat)
    requires k < |RunCalls(EMPTY, calls).creditHistory|
    ensures Announced(RunCalls(EMPTY, calls).creditHistory[k])
  {
    hide Inv, RunCalls, Announced, NoteAt;
    EmptyInv();
    RunKeepsNotes(EMPTY, calls);
    NoteRowIsAnnounced(RunCalls(EMPTY, calls).creditHistory[k]);
  }
}
