/**
 The transactional outbox relay (crates/bus/src/outbox.rs, crates/store/src/repo/history.rs).

 A pass publishes the messages of every pending history row and then marks the row. Any step may
 fail before or after it takes effect, and the pass stops there; a crash is such a failure.
 */
module Outbox {
  import opened Wrappers
  import opened Calendar
  import opened Text
  import opened Timestamps
  import opened Sorting
  import opened Lifecycle
  import opened Tables
  import opened Invariants

  // ---------------------------------------------------------------------------
  // A row's messages
  // ---------------------------------------------------------------------------

  /** The event rebuilt from an audit tag; payment amounts are sentinels that classify alike. */
  function Reconstruct(tag: string, to: State): Option<Event> {
    if tag == "issue" then Some(Issue)
    else if tag == "send" then Some(Send)
    else if tag == "remind" then Some(Remind)
    else if tag == "view" then Some(View)
    else if tag == "pay" then
      (match to
       case Paid => Some(Pay(1.0, 1.0))
       case PartiallyPaid => Some(Pay(1.0, 2.0))
       case _ => None)
    else if tag == "void" then Some(Void)
    else None
  }

  function DomainTopic(tag: string, to: State): Option<string> {
    match to
    case Draft => if tag == "draft" then Some("inv.billing.invoice.drafted") else None
    case Issued => if tag == "issue" then Some("inv.billing.invoice.issued") else None
    case Sent => if tag == "send" then Some("inv.billing.invoice.sent") else None
    case Viewed => if tag == "view" then Some("inv.billing.invoice.viewed") else None
    case Paid => if tag == "pay" then Some("inv.billing.invoice.paid") else None
    case PartiallyPaid => if tag == "pay" then Some("inv.billing.invoice.partially_paid") else None
    case Voided => if tag == "void" then Some("inv.billing.invoice.voided") else None
  }

  function Triplet(r: Row): seq<Message> {
    if r.from.None? || r.from == Some(r.to) then []
    else
      match Reconstruct(r.event, r.to)
      case None => []
      case Some(e) => [InvoiceProposed(r.invoice, r.from.value, r.to, e, r.occurredAt),
                       InvoiceTransitioned(r.invoice, r.from.value, r.to, e, r.occurredAt),
                       InvoiceEntered(r.invoice, r.to, r.occurredAt)]
  }

  function RowMessages(r: Row): seq<Message> {
    Triplet(r) +
    (match DomainTopic(r.event, r.to)
     case None => []
     case Some(topic) => [InvoiceDomain(topic, r.invoice, r.from, r.to, r.event, r.occurredAt)])
  }

  function CreditTopic(tag: string, to: CreditState): Option<string> {
    match to
    case CreditDraft => if tag == "draft" then Some("inv.billing.creditnote.drafted") else None
    case CreditIssued => if tag == "issue" then Some("inv.billing.creditnote.issued") else None
  }

  function CreditMessages(r: CreditRow): seq<Message> {
    (if r.from.None? || r.from == Some(r.to) then []
     else [CreditProposed(r.note, r.from.value, r.to, r.occurredAt),
           CreditTransitioned(r.note, r.from.value, r.to, r.occurredAt),
           CreditEntered(r.note, r.to, r.occurredAt)]) +
    (match CreditTopic(r.event, r.to)
     case None => []
     case Some(topic) => [CreditDomain(topic, r.note, r.from, r.to, r.event, r.occurredAt)])
  }

  /** The word by which subscribers know that an invoice has reached a state. */
  function StateWord(s: State): string {
    match s
    case Draft => "drafted"
    case Issued => "issued"
    case Sent => "sent"
    case Viewed => "viewed"
    case PartiallyPaid => "partially_paid"
    case Paid => "paid"
    case Voided => "voided"
  }

  /** The one domain message of a row: its topic names the state the row reached. */
  function Announcement(r: Row): Message {
    InvoiceDomain("inv.billing.invoice." + StateWord(r.to), r.invoice, r.from, r.to, r.event, r.occurredAt)
  }

  /**
   What the relay emits for a row: always exactly one domain message, and before it the triplet
   exactly when the state moved, with an event of the row's own tag that the table sends from the
   row's `from` to its `to`.
   */
  ghost predicate FaithfulMessages(r: Row) {
    && (r.from.Some? && r.from != Some(r.to) ==>
          && |RowMessages(r)| == 4
          && exists e :: && Reconstruct(r.event, r.to) == Some(e)
                         && Tag(e) == r.event && NextState(r.from.value, e) == Success(r.to)
                         && RowMessages(r)[..3] == [InvoiceProposed(r.invoice, r.from.value, r.to, e, r.occurredAt),
                                                    InvoiceTransitioned(r.invoice, r.from.value, r.to, e, r.occurredAt),
                                                    InvoiceEntered(r.invoice, r.to, r.occurredAt)])
    && (r.from.None? || r.from == Some(r.to) ==> |RowMessages(r)| == 1)
    && RowMessages(r) != [] && RowMessages(r)[|RowMessages(r)| - 1] == Announcement(r)
  }

  lemma TopicNamesState(tag: string, to: State)
    requires DomainTopic(tag, to).Some?
    ensures DomainTopic(tag, to) == Some("inv.billing.invoice." + StateWord(to))
  {
    match to {
      case Draft => assert "inv.billing.invoice." + "drafted" == "inv.billing.invoice.drafted";
      case Issued => assert "inv.billing.invoice." + "issued" == "inv.billing.invoice.issued";
      case Sent => assert "inv.billing.invoice." + "sent" == "inv.billing.invoice.sent";
      case Viewed => assert "inv.billing.invoice." + "viewed" == "inv.billing.invoice.viewed";
      case PartiallyPaid => assert "inv.billing.invoice." + "partially_paid" == "inv.billing.invoice.partially_paid";
      case Paid => assert "inv.billing.invoice." + "paid" == "inv.billing.invoice.paid";
      case Voided => assert "inv.billing.invoice." + "voided" == "inv.billing.invoice.voided";
    }
  }

  /** A linked row has a topic, and its event is rebuilt unless it is the resend. */
  lemma LinkedRowReads(before: State, r: Row, paid: real, total: real)
    requires Link(before, r, paid, total)
    ensures r.from == Some(before) && DomainTopic(r.event, r.to).Some?
    ensures r.to != before ==>
              && Reconstruct(r.event, r.to).Some?
              && Tag(Reconstruct(r.event, r.to).value) == r.event
              && NextState(before, Reconstruct(r.event, r.to).value) == Success(r.to)
  {
    if !IsResend(before, r) {
      var e := EventOf(r, paid, total).value;
    }
  }

  lemma LinkedRowIsFaithful(before: State, r: Row, paid: real, total: real)
    requires Link(before, r, paid, total)
    ensures FaithfulMessages(r)
  {
    hide Link, DomainTopic, Reconstruct, NextState, Tag, StateWord;
    LinkedRowReads(before, r, paid, total);
    TopicNamesState(r.event, r.to);
  }

  lemma ChainedRowIsFaithful(rows: seq<Row>, total: real, k: nat)
    requires Chained(rows, total) && k < |rows|
    ensures FaithfulMessages(rows[k])
  {
    hide Link, FaithfulMessages, PaidSum;
    ChainAt(rows, total, k);
    if k > 0 {
      LinkedRowIsFaithful(rows[k - 1].to, rows[k], PaidSum(rows[..k + 1]), total);
    } else {
      FirstRowIsFaithful(rows[0]);
    }
  }

  lemma FirstRowIsFaithful(r: Row)
    requires r.from == None && r.to == State.Draft && r.event == "draft"
    ensures FaithfulMessages(r)
  {
    hide StateWord;
    TopicNamesState(r.event, r.to);
  }

  /** Every history row of a reachable ledger yields four messages or one, and they replay its edge. */
  lemma EveryRowIsFaithful(db: Db, k: nat)
    requires LedgerOk(db) && k < |db.history|
    ensures FaithfulMessages(db.history[k])
  {
    hide FaithfulMessages, Chained;
    var r := db.history[k];
    assert InvoiceAt(db, r.invoice);
    var rows := RowsOf(db.history, r.invoice);
    RowIsListed(db.history, k);
    var j :| 0 <= j < |rows| && rows[j] == r;
    ChainedRowIsFaithful(rows, db.invoices[r.invoice].total, j);
  }

  // ---------------------------------------------------------------------------
  // One pass
  // ---------------------------------------------------------------------------

  datatype Table = InvoiceTable | CreditTable

  /** How one step of the pass goes: it works, fails without effect, or fails after taking effect. */
  datatype Fault = Fine | Lost | TookEffect

  /** A pass in progress: `op` steps taken, and the counters of `OutboxStats`. */
  datatype Pass = Pass(db: Db, op: nat, rows: nat, events: nat, ok: bool)

  function Size(db: Db, t: Table): nat {
    if t == InvoiceTable then |db.history| else |db.creditHistory|
  }

  /** The messages of one row, as the relay maps it. */
  function Messages(db: Db, t: Table, id: nat): seq<Message> {
    if id >= Size(db, t) then []
    else if t == InvoiceTable then RowMessages(db.history[id])
    else CreditMessages(db.creditHistory[id])
  }

  function Published(db: Db, t: Table): set<nat> {
    if t == InvoiceTable then db.published else db.creditPublished
  }

  function Marked(db: Db, t: Table, id: nat): Db {
    if t == InvoiceTable then db.(published := db.published + {id})
    else db.(creditPublished := db.creditPublished + {id})
  }

  function OccurredAt(db: Db, t: Table, id: nat): Instant
    requires id < Size(db, t)
  {
    if t == InvoiceTable then db.history[id].occurredAt else db.creditHistory[id].occurredAt
  }

  function StampKeys(db: Db, t: Table): (keys: seq<string>)
    ensures |keys| == Size(db, t)
    ensures forall i :: 0 <= i < |keys| ==> keys[i] == StampText(OccurredAt(db, t, i))
  {
    seq(Size(db, t), i requires 0 <= i < Size(db, t) => StampText(OccurredAt(db, t, i)))
  }

  /** The rows among the first `n` whose `published_at` is not set. */
  function Unpublished(published: set<nat>, n: nat): (ids: seq<nat>)
    ensures forall i :: 0 <= i < |ids| ==> ids[i] < n && ids[i] !in published
    ensures forall id: nat :: id < n && id !in published ==> id in ids
    ensures forall i, j :: 0 <= i < j < |ids| ==> ids[i] < ids[j]
  {
    if n == 0 then []
    else
      var rest := Unpublished(published, n - 1);
      if n - 1 in published then rest else rest + [n - 1]
  }

  /** The whole backlog of a table, oldest row first. */
  function Backlog(db: Db, t: Table): seq<nat> {
    SortIds(StampKeys(db, t), Unpublished(Published(db, t), Size(db, t)))
  }

  /** `ORDER BY occurred_at ASC LIMIT ?`; a negative limit is no limit. */
  function Pending(db: Db, t: Table, limit: int): seq<nat> {
    var ids := Backlog(db, t);
    if 0 <= limit < |ids| then ids[..limit] else ids
  }

  function PublishAll(p: Pass, messages: seq<Message>, faults: nat -> Fault): Pass
    decreases |messages|
  {
    if messages == [] then p
    else
      var sent := p.(db := p.db.(bus := p.db.bus + [messages[0]]), op := p.op + 1);
      match faults(p.op)
      case Fine => PublishAll(sent.(events := p.events + 1), messages[1..], faults)
      case Lost => p.(op := p.op + 1, ok := false)
      case TookEffect => sent.(ok := false)
  }

  function MarkPublished(p: Pass, t: Table, id: nat, faults: nat -> Fault): Pass {
    var marked := p.(db := Marked(p.db, t, id), op := p.op + 1);
    match faults(p.op)
    case Fine => marked.(rows := p.rows + 1)
    case Lost => p.(op := p.op + 1, ok := false)
    case TookEffect => marked.(ok := false)
  }

  function Drain(p: Pass, t: Table, ids: seq<nat>, faults: nat -> Fault): Pass
    decreases |ids|
  {
    if ids == [] then p
    else
      var sent := PublishAll(p, Messages(p.db, t, ids[0]), faults);
      if !sent.ok then sent
      else
        var marked := MarkPublished(sent, t, ids[0], faults);
        if !marked.ok then marked else Drain(marked, t, ids[1..], faults)
  }

  /** Read the pending rows of one table and drain them; the read itself may fail. */
  function DrainTable(p: Pass, t: Table, limit: int, faults: nat -> Fault): Pass {
    var read := p.(op := p.op + 1);
    if faults(p.op) != Fine then read.(ok := false)
    else Drain(read, t, Pending(p.db, t, limit), faults)
  }

  /** `run_outbox_relay`: the invoice table, then the credit-note table. */
  function Relay(db: Db, limit: int, faults: nat -> Fault): Pass {
    var first := DrainTable(Pass(db, 0, 0, 0, true), InvoiceTable, limit, faults);
    if !first.ok then first else DrainTable(first, CreditTable, limit, faults)
  }

  /** Nothing but the bus and the published marks moves. */
  predicate SameTables(a: Db, b: Db) {
    b == a.(bus := b.bus, published := b.published, creditPublished := b.creditPublished)
  }

  lemma {:induction false} PublishFrame(p: Pass, messages: seq<Message>, faults: nat -> Fault)
    ensures PublishAll(p, messages, faults).db == p.db.(bus := PublishAll(p, messages, faults).db.bus)
    decreases |messages|
  {
    if messages != [] && faults(p.op) == Fine {
      var sent := p.(db := p.db.(bus := p.db.bus + [messages[0]]), op := p.op + 1);
      PublishFrame(sent.(events := p.events + 1), messages[1..], faults);
    }
  }

  predicate InTable(db: Db, t: Table, ids: seq<nat>) {
    forall i :: 0 <= i < |ids| ==> ids[i] < Size(db, t)
  }

  lemma SortedUnpublished(db: Db, t: Table)
    ensures var all, sorted := Unpublished(Published(db, t), Size(db, t)),
                               SortIds(StampKeys(db, t), Unpublished(Published(db, t), Size(db, t)));
            && |sorted| == |all|
            && InTable(db, t, sorted)
            && (forall i :: 0 <= i < |sorted| ==> sorted[i] !in Published(db, t))
            && (forall id: nat :: id < Size(db, t) && id !in Published(db, t) ==> id in sorted)
  {
    var all := Unpublished(Published(db, t), Size(db, t));
    var sorted := SortIds(StampKeys(db, t), all);
    SortIdsDistinct(StampKeys(db, t), all);
    SameLength(sorted, all);
    forall i | 0 <= i < |sorted|
      ensures sorted[i] < Size(db, t) && sorted[i] !in Published(db, t)
    {
      assert sorted[i] in all;
    }
  }

  lemma SameLength(a: seq<nat>, b: seq<nat>)
    requires multiset(a) == multiset(b)
    ensures |a| == |b|
  {
    assert |a| == |multiset(a)| && |b| == |multiset(b)|;
  }

  lemma PendingRows(db: Db, t: Table, limit: int)
    ensures InTable(db, t, Pending(db, t, limit))
    ensures forall i :: 0 <= i < |Pending(db, t, limit)| ==> Pending(db, t, limit)[i] !in Published(db, t)
    ensures limit < 0 || limit >= |Unpublished(Published(db, t), Size(db, t))| ==>
              forall id: nat :: id < Size(db, t) && id !in Published(db, t) ==> id in Pending(db, t, limit)
  {
    hide Unpublished, SortIds, StampKeys, Size;
    SortedUnpublished(db, t);
  }

  /** Row `a` goes before row `b`: it occurred earlier, or at the same instant and was written earlier. */
  predicate GoesBefore(db: Db, t: Table, a: nat, b: nat) {
    && a < Size(db, t) && b < Size(db, t)
    && (StampBefore(OccurredAt(db, t, a), OccurredAt(db, t, b))
        || (OccurredAt(db, t, a) == OccurredAt(db, t, b) && a < b))
  }

  lemma PrecedesGoesBefore(db: Db, t: Table, a: nat, b: nat)
    requires a < Size(db, t) && b < Size(db, t) && Precedes(StampKeys(db, t), a, b)
    ensures GoesBefore(db, t, a, b)
  {
    hide LexLess, StampText, StampBefore;
    StampTextOrder(OccurredAt(db, t, a), OccurredAt(db, t, b));
  }

  lemma BacklogInOrder(db: Db, t: Table, i: nat, j: nat)
    requires i < j < |Backlog(db, t)|
    ensures GoesBefore(db, t, Backlog(db, t)[i], Backlog(db, t)[j])
  {
    hide Precedes, GoesBefore, SortIds;
    SortedUnpublished(db, t);
    SortIdsStable(StampKeys(db, t), Unpublished(Published(db, t), Size(db, t)));
    PrecedesGoesBefore(db, t, Backlog(db, t)[i], Backlog(db, t)[j]);
  }

  /** A pass takes rows in the order of the instants they occurred at, and in row order on ties. */
  lemma PendingInInstantOrder(db: Db, t: Table, limit: int, i: nat, j: nat)
    requires i < j < |Pending(db, t, limit)|
    ensures GoesBefore(db, t, Pending(db, t, limit)[i], Pending(db, t, limit)[j])
  {
    hide SortIds, GoesBefore;
    BacklogInOrder(db, t, i, j);
  }

  /**
   The rows a limited pass takes are the oldest: as many as the limit and the backlog allow, and every
   unpublished row it leaves goes after every row it takes.
   */
  lemma PendingTakesTheOldest(db: Db, t: Table, limit: nat, left: nat, i: nat)
    ensures var backlog := |Unpublished(Published(db, t), Size(db, t))|;
            |Pending(db, t, limit)| == if limit < backlog then limit else backlog
    ensures left < Size(db, t) && left !in Published(db, t) && left !in Pending(db, t, limit) && i < |Pending(db, t, limit)|
            ==> GoesBefore(db, t, Pending(db, t, limit)[i], left)
  {
    hide SortIds, GoesBefore, Unpublished;
    SortedUnpublished(db, t);
    var ids := Backlog(db, t);
    if left < Size(db, t) && left !in Published(db, t) && left !in Pending(db, t, limit) && i < |Pending(db, t, limit)| {
      assert left in ids;
      var j :| 0 <= j < |ids| && ids[j] == left;
      assert forall m :: 0 <= m < |Pending(db, t, limit)| ==> Pending(db, t, limit)[m] == ids[m];
      BacklogInOrder(db, t, i, j);
    }
  }

  // ---------------------------------------------------------------------------
  // What the bus has received
  // ---------------------------------------------------------------------------

  /** The first `sent` messages of one row. */
  datatype Chunk = Chunk(table: Table, id: nat, sent: nat)

  predicate ChunkOk(db: Db, c: Chunk) {
    c.id < Size(db, c.table) && c.sent <= |Messages(db, c.table, c.id)|
  }

  predicate ChunksOk(db: Db, chunks: seq<Chunk>) {
    forall i :: 0 <= i < |chunks| ==> ChunkOk(db, chunks[i])
  }

  /** One of the chunks is the whole message list of this row. */
  predicate Delivered(db: Db, chunks: seq<Chunk>, t: Table, id: nat) {
    id < Size(db, t) && Chunk(t, id, |Messages(db, t, id)|) in chunks
  }

  function Flat(db: Db, chunks: seq<Chunk>): seq<Message>
    requires ChunksOk(db, chunks)
  {
    if chunks == [] then []
    else
      var n := |chunks| - 1;
      Flat(db, chunks[..n]) + Messages(db, chunks[n].table, chunks[n].id)[..chunks[n].sent]
  }

  /** The bus holds exactly these prefixes, and every published row has a complete one among them. */
  ghost predicate Explains(chunks: seq<Chunk>, db: Db) {
    && ChunksOk(db, chunks)
    && db.bus == Flat(db, chunks)
    && (forall id :: id in db.published ==> Delivered(db, chunks, InvoiceTable, id))
    && (forall id :: id in db.creditPublished ==> Delivered(db, chunks, CreditTable, id))
  }

  ghost predicate BusOk(db: Db) {
    exists chunks: seq<Chunk> :: Explains(chunks, db)
  }

  predicate HistoryGrows(a: Db, b: Db) {
    a.history <= b.history && a.creditHistory <= b.creditHistory
  }

  lemma MessagesStable(a: Db, b: Db, t: Table, id: nat)
    requires HistoryGrows(a, b) && id < Size(a, t)
    ensures id < Size(b, t) && Messages(a, t, id) == Messages(b, t, id)
  {
  }

  /** Both history tables only grow, so what was explained stays explained. */
  lemma {:induction false} FlatStable(a: Db, b: Db, chunks: seq<Chunk>)
    requires HistoryGrows(a, b) && ChunksOk(a, chunks)
    ensures ChunksOk(b, chunks)
    ensures Flat(a, chunks) == Flat(b, chunks)
  {
    hide Messages, HistoryGrows;
    if chunks != [] {
      var n := |chunks| - 1;
      FlatStable(a, b, chunks[..n]);
      assert ChunkOk(a, chunks[n]);
      MessagesStable(a, b, chunks[n].table, chunks[n].id);
      assert forall i :: 0 <= i < n ==> chunks[i] == chunks[..n][i];
    }
  }

  lemma ExplainsStable(a: Db, b: Db, chunks: seq<Chunk>)
    requires Explains(chunks, a) && HistoryGrows(a, b)
    requires a.bus == b.bus && a.published == b.published && a.creditPublished == b.creditPublished
    ensures Explains(chunks, b)
  {
    hide Messages, HistoryGrows, Flat, ChunksOk;
    FlatStable(a, b, chunks);
    forall id | id in b.published
      ensures Delivered(b, chunks, InvoiceTable, id)
    {
      assert Delivered(a, chunks, InvoiceTable, id);
      MessagesStable(a, b, InvoiceTable, id);
    }
    forall id | id in b.creditPublished
      ensures Delivered(b, chunks, CreditTable, id)
    {
      assert Delivered(a, chunks, CreditTable, id);
      MessagesStable(a, b, CreditTable, id);
    }
  }

  /** How many of the messages reach the bus. */
  function Accepted(messages: seq<Message>, faults: nat -> Fault, op: nat): (k: nat)
    ensures k <= |messages|
  {
    if messages == [] then 0
    else
      match faults(op)
      case Fine => 1 + Accepted(messages[1..], faults, op + 1)
      case Lost => 0
      case TookEffect => 1
  }

  lemma {:induction false} PublishSends(p: Pass, messages: seq<Message>, faults: nat -> Fault)
    requires p.ok
    ensures var p', k := PublishAll(p, messages, faults), Accepted(messages, faults, p.op);
            && p'.db.bus == p.db.bus + messages[..k]
            && (p'.ok ==> k == |messages| && p'.events == p.events + k && p'.rows == p.rows)
    decreases |messages|
  {
    if messages != [] {
      var sent := p.(db := p.db.(bus := p.db.bus + [messages[0]]), op := p.op + 1);
      if faults(p.op) == Fine {
        var k := Accepted(messages[1..], faults, p.op + 1);
        PublishSends(sent.(events := p.events + 1), messages[1..], faults);
        assert [messages[0]] + messages[1..][..k] == messages[..k + 1];
      }
    }
  }

  lemma ChunkAppended(a: Db, b: Db, chunks: seq<Chunk>, c: Chunk)
    requires Explains(chunks, a) && ChunkOk(a, c)
    requires b == a.(bus := a.bus + Messages(a, c.table, c.id)[..c.sent])
    ensures Explains(chunks + [c], b)
  {
    hide Messages;
    var chunks' := chunks + [c];
    assert Size(b, InvoiceTable) == Size(a, InvoiceTable) && Size(b, CreditTable) == Size(a, CreditTable);
    SameMessages(a, b);
    FlatStable(a, b, chunks);
    assert chunks'[..|chunks|] == chunks;
    forall id | id in b.published
      ensures Delivered(b, chunks', InvoiceTable, id)
    {
      assert Delivered(a, chunks, InvoiceTable, id);
    }
    forall id | id in b.creditPublished
      ensures Delivered(b, chunks', CreditTable, id)
    {
      assert Delivered(a, chunks, CreditTable, id);
    }
  }

  lemma SameMessages(a: Db, b: Db)
    requires a.history == b.history && a.creditHistory == b.creditHistory
    ensures HistoryGrows(a, b)
    ensures forall t: Table, id: nat :: Messages(a, t, id) == Messages(b, t, id)
  {
  }

  lemma MarkExplained(a: Db, chunks: seq<Chunk>, t: Table, id: nat)
    requires Explains(chunks, a) && Delivered(a, chunks, t, id)
    ensures Explains(chunks, Marked(a, t, id))
  {
    hide Messages;
    var b := Marked(a, t, id);
    SameMessages(a, b);
    FlatStable(a, b, chunks);
    forall i | i in b.published
      ensures Delivered(b, chunks, InvoiceTable, i)
    {
      assert Delivered(a, chunks, InvoiceTable, i);
    }
    forall i | i in b.creditPublished
      ensures Delivered(b, chunks, CreditTable, i)
    {
      assert Delivered(a, chunks, CreditTable, i);
    }
  }

  /** Publishing one row and marking it. */
  function Handle(p: Pass, t: Table, id: nat, faults: nat -> Fault): Pass {
    var sent := PublishAll(p, Messages(p.db, t, id), faults);
    if sent.ok then MarkPublished(sent, t, id, faults) else sent
  }

  lemma HandleExplained(p: Pass, t: Table, id: nat, faults: nat -> Fault)
    requires p.ok && BusOk(p.db) && id < Size(p.db, t)
    ensures BusOk(Handle(p, t, id, faults).db)
    ensures SameTables(p.db, Handle(p, t, id, faults).db)
  {
    hide Messages, Explains;
    var messages := Messages(p.db, t, id);
    var sent, c := PublishAll(p, messages, faults), Chunk(t, id, Accepted(messages, faults, p.op));
    var chunks: seq<Chunk> :| Explains(chunks, p.db);
    PublishFrame(p, messages, faults);
    PublishSends(p, messages, faults);
    ChunkAppended(p.db, sent.db, chunks, c);
    if sent.ok {
      SameMessages(p.db, sent.db);
      assert Delivered(sent.db, chunks + [c], t, id);
      MarkExplained(sent.db, chunks + [c], t, id);
    }
  }

  /**
   For every pattern of failures the bus log stays a concatenation of prefixes of rows' message
   lists, and a row is marked only after all its messages went out.
   */
  lemma {:induction false} DrainExplained(p: Pass, t: Table, ids: seq<nat>, faults: nat -> Fault)
    requires p.ok && BusOk(p.db) && InTable(p.db, t, ids)
    ensures BusOk(Drain(p, t, ids, faults).db)
    ensures SameTables(p.db, Drain(p, t, ids, faults).db)
    decreases |ids|
  {
    hide Messages, BusOk, PublishAll, MarkPublished;
    if ids != [] {
      var next := Handle(p, t, ids[0], faults);
      HandleExplained(p, t, ids[0], faults);
      if next.ok {
        DrainExplained(next, t, ids[1..], faults);
      }
    }
  }

  lemma RelayExplained(db: Db, limit: int, faults: nat -> Fault)
    requires BusOk(db)
    ensures BusOk(Relay(db, limit, faults).db)
    ensures SameTables(db, Relay(db, limit, faults).db)
  {
    hide BusOk, Pending, Drain;
    var start := Pass(db, 0, 0, 0, true);
    PendingRows(db, InvoiceTable, limit);
    if faults(0) == Fine {
      DrainExplained(start.(op := 1), InvoiceTable, Pending(db, InvoiceTable, limit), faults);
    }
    var first := DrainTable(start, InvoiceTable, limit, faults);
    if first.ok {
      PendingRows(first.db, CreditTable, limit);
      if faults(first.op) == Fine {
        DrainExplained(first.(op := first.op + 1), CreditTable, Pending(first.db, CreditTable, limit), faults);
      }
    }
  }

  // ---------------------------------------------------------------------------
  // How far a limited pass goes
  // ---------------------------------------------------------------------------

  function Ids(ids: seq<nat>): set<nat> {
    set i | 0 <= i < |ids| :: ids[i]
  }

  lemma MarksOne(p: Pass, t: Table, id: nat, faults: nat -> Fault) returns (marks: bool)
    requires p.ok
    ensures var p' := Handle(p, t, id, faults);
            && Published(p'.db, t) == Published(p.db, t) + (if marks then {id} else {})
            && (forall t' :: t' != t ==> Published(p'.db, t') == Published(p.db, t'))
            && SameTables(p.db, p'.db) && (p'.ok ==> marks && p'.rows == p.rows + 1)
  {
    hide Messages;
    PublishSends(p, Messages(p.db, t, id), faults);
    PublishFrame(p, Messages(p.db, t, id), faults);
    var sent := PublishAll(p, Messages(p.db, t, id), faults);
    marks := sent.ok && faults(sent.op) != Lost;
  }

  lemma FirstAndRest(ids: seq<nat>, k: nat)
    requires 0 < k <= |ids|
    ensures Ids(ids[..k]) == {ids[0]} + Ids(ids[1..][..k - 1])
  {
    assert ids[..k] == [ids[0]] + ids[1..][..k - 1];
    forall x | x in Ids(ids[..k])
      ensures x in {ids[0]} + Ids(ids[1..][..k - 1])
    {
      var i :| 0 <= i < k && ids[..k][i] == x;
      if i > 0 {
        assert ids[1..][..k - 1][i - 1] == x;
      }
    }
    forall x | x in {ids[0]} + Ids(ids[1..][..k - 1])
      ensures x in Ids(ids[..k])
    {
      if x == ids[0] {
        assert ids[..k][0] == x;
      } else {
        var i :| 0 <= i < k - 1 && ids[1..][..k - 1][i] == x;
        assert ids[..k][i + 1] == x;
      }
    }
  }

  /** Whatever fails, the rows a table's loop marks are the first few it was given. */
  lemma {:induction false} DrainMarksFirst(p: Pass, t: Table, ids: seq<nat>, faults: nat -> Fault) returns (k: nat)
    requires p.ok
    ensures var p' := Drain(p, t, ids, faults);
            && k <= |ids| && Published(p'.db, t) == Published(p.db, t) + Ids(ids[..k])
            && (forall t' :: t' != t ==> Published(p'.db, t') == Published(p.db, t'))
            && SameTables(p.db, p'.db) && (p'.ok ==> k == |ids| && p'.rows == p.rows + k)
    decreases |ids|
  {
    hide Messages, PublishAll, MarkPublished, Published;
    k := 0;
    if ids != [] {
      var next := Handle(p, t, ids[0], faults);
      var marks := MarksOne(p, t, ids[0], faults);
      if next.ok {
        var rest := DrainMarksFirst(next, t, ids[1..], faults);
        k := rest + 1;
        FirstAndRest(ids, k);
      } else if marks {
        k := 1;
        FirstAndRest(ids, 1);
      }
    }
  }

  lemma TableMarksFirst(p: Pass, t: Table, limit: int, faults: nat -> Fault) returns (k: nat)
    requires p.ok
    ensures var p', ids := DrainTable(p, t, limit, faults), Pending(p.db, t, limit);
            && k <= |ids| && Published(p'.db, t) == Published(p.db, t) + Ids(ids[..k])
            && (forall t' :: t' != t ==> Published(p'.db, t') == Published(p.db, t'))
            && SameTables(p.db, p'.db) && (p'.ok ==> k == |ids| && p'.rows == p.rows + k)
  {
    hide Pending, Drain, Published;
    k := 0;
    if faults(p.op) == Fine {
      k := DrainMarksFirst(p.(op := p.op + 1), t, Pending(p.db, t, limit), faults);
    }
  }

  lemma SamePending(a: Db, b: Db, t: Table, limit: int)
    requires SameTables(a, b) && Published(a, t) == Published(b, t)
    ensures Pending(a, t, limit) == Pending(b, t, limit)
  {
    hide SortIds, Unpublished;
    assert StampKeys(a, t) == StampKeys(b, t);
  }

  /** A pass marks, of each table, the first few of its oldest rows; if it succeeds, all it took, and it counts them. */
  lemma RelayMarksTheOldest(db: Db, limit: int, faults: nat -> Fault) returns (k: nat, l: nat)
    ensures var p := Relay(db, limit, faults);
            var invoices, credits := Pending(db, InvoiceTable, limit), Pending(db, CreditTable, limit);
            && k <= |invoices| && p.db.published == db.published + Ids(invoices[..k])
            && l <= |credits| && p.db.creditPublished == db.creditPublished + Ids(credits[..l])
            && (p.ok ==> k == |invoices| && l == |credits| && p.rows == k + l)
  {
    hide Pending, DrainTable;
    var start := Pass(db, 0, 0, 0, true);
    l := 0;
    k := TableMarksFirst(start, InvoiceTable, limit, faults);
    var first := DrainTable(start, InvoiceTable, limit, faults);
    assert first.db.published == Published(first.db, InvoiceTable);
    assert first.db.creditPublished == Published(first.db, CreditTable) == Published(db, CreditTable);
    if first.ok {
      SamePending(db, first.db, CreditTable, limit);
      l := TableMarksFirst(first, CreditTable, limit, faults);
      var last := DrainTable(first, CreditTable, limit, faults);
      assert last.db.creditPublished == Published(last.db, CreditTable);
      assert last.db.published == Published(last.db, InvoiceTable);
    }
  }

  /** So a limited pass from any store publishes at most `limit` rows of each table. */
  lemma RelayMarksAtMost(db: Db, limit: nat, faults: nat -> Fault)
    ensures var after := Relay(db, limit, faults).db;
            && |after.published - db.published| <= limit && |after.creditPublished - db.creditPublished| <= limit
  {
    hide Relay, Pending;
    var k, l := RelayMarksTheOldest(db, limit, faults);
    PendingTakesTheOldest(db, InvoiceTable, limit, 0, 0);
    PendingTakesTheOldest(db, CreditTable, limit, 0, 0);
    IdsCount(Pending(db, InvoiceTable, limit)[..k], db.published);
    IdsCount(Pending(db, CreditTable, limit)[..l], db.creditPublished);
  }

  lemma {:induction false} IdsCount(ids: seq<nat>, published: set<nat>)
    ensures |(published + Ids(ids)) - published| <= |ids|
  {
    if ids != [] {
      var n := |ids| - 1;
      IdsCount(ids[..n], published);
      assert Ids(ids) == Ids(ids[..n]) + {ids[n]} by {
        assert forall i :: 0 <= i < n ==> ids[..n][i] == ids[i];
      }
      var less := (published + Ids(ids[..n])) - published;
      assert (published + Ids(ids)) - published <= less + {ids[n]};
      SubsetCount((published + Ids(ids)) - published, less + {ids[n]});
    } else {
      assert (published + Ids(ids)) - published == {};
    }
  }

  lemma SubsetCount(a: set<nat>, b: set<nat>)
    requires a <= b
    ensures |a| <= |b|
  {
    assert b == a + (b - a);
  }

  // ---------------------------------------------------------------------------
  // Progress and idempotence
  // ---------------------------------------------------------------------------

  lemma SuccessfulHandle(p: Pass, t: Table, id: nat, faults: nat -> Fault)
    requires p.ok && Handle(p, t, id, faults).ok
    ensures var p' := Handle(p, t, id, faults);
            && p'.db == Marked(p.db, t, id).(bus := p'.db.bus)
            && p'.rows == p.rows + 1
            && |p'.db.bus| == |p.db.bus| + (p'.events - p.events)
  {
    hide Messages;
    PublishFrame(p, Messages(p.db, t, id), faults);
    PublishSends(p, Messages(p.db, t, id), faults);
  }

  lemma {:induction false} SuccessfulDrain(p: Pass, t: Table, ids: seq<nat>, faults: nat -> Fault)
    requires p.ok && Drain(p, t, ids, faults).ok
    ensures var p' := Drain(p, t, ids, faults);
            && Published(p'.db, t) == Published(p.db, t) + (set id | id in ids)
            && (forall t' :: t' != t ==> Published(p'.db, t') == Published(p.db, t'))
            && SameTables(p.db, p'.db)
            && p'.rows == p.rows + |ids|
            && |p'.db.bus| == |p.db.bus| + (p'.events - p.events)
    decreases |ids|
  {
    hide Messages, PublishAll, MarkPublished;
    if ids != [] {
      var next := Handle(p, t, ids[0], faults);
      assert Drain(p, t, ids, faults) == Drain(next, t, ids[1..], faults);
      SuccessfulHandle(p, t, ids[0], faults);
      SuccessfulDrain(next, t, ids[1..], faults);
      assert (set id | id in ids) == {ids[0]} + (set id | id in ids[1..]);
    }
  }

  predicate HasAll(published: set<nat>, n: nat) {
    forall id: nat :: id < n ==> id in published
  }

  predicate AllPublished(db: Db) {
    HasAll(db.published, |db.history|) && HasAll(db.creditPublished, |db.creditHistory|)
  }

  /** The limit covers the whole backlog of a table. */
  predicate Covers(db: Db, t: Table, limit: int) {
    limit < 0 || limit >= |Unpublished(Published(db, t), Size(db, t))|
  }

  lemma SuccessfulTable(p: Pass, t: Table, limit: int, faults: nat -> Fault)
    requires p.ok && DrainTable(p, t, limit, faults).ok && Covers(p.db, t, limit)
    ensures var p' := DrainTable(p, t, limit, faults);
            && HasAll(Published(p'.db, t), Size(p.db, t))
            && (forall t' :: t' != t ==> Published(p'.db, t') == Published(p.db, t'))
            && SameTables(p.db, p'.db)
            && |p'.db.bus| == |p.db.bus| + (p'.events - p.events)
  {
    hide Pending, Drain, Size;
    PendingRows(p.db, t, limit);
    SuccessfulDrain(p.(op := p.op + 1), t, Pending(p.db, t, limit), faults);
  }

  /** A successful pass whose limit covers the backlog marks every row, and counts what it published. */
  lemma SuccessfulPassDrainsAll(db: Db, limit: int, faults: nat -> Fault)
    requires Relay(db, limit, faults).ok && Covers(db, InvoiceTable, limit) && Covers(db, CreditTable, limit)
    ensures AllPublished(Relay(db, limit, faults).db)
    ensures |Relay(db, limit, faults).db.bus| == |db.bus| + Relay(db, limit, faults).events
  {
    hide DrainTable;
    var start := Pass(db, 0, 0, 0, true);
    var first := DrainTable(start, InvoiceTable, limit, faults);
    SuccessfulTable(start, InvoiceTable, limit, faults);
    assert Published(first.db, CreditTable) == Published(db, CreditTable);
    SuccessfulTable(first, CreditTable, limit, faults);
    var last := DrainTable(first, CreditTable, limit, faults);
    assert Published(last.db, InvoiceTable) == Published(first.db, InvoiceTable);
  }

  /** Once everything is published, a further pass publishes nothing and changes nothing, whatever fails. */
  lemma PassAfterDrainIsIdle(db: Db, limit: int, faults: nat -> Fault)
    requires AllPublished(db)
    ensures Relay(db, limit, faults).db == db
    ensures Relay(db, limit, faults).events == 0 && Relay(db, limit, faults).rows == 0
  {
    hide Pending;
    NothingPending(db, InvoiceTable, limit);
    NothingPending(db, CreditTable, limit);
  }

  lemma NothingPending(db: Db, t: Table, limit: int)
    requires HasAll(Published(db, t), Size(db, t))
    ensures Pending(db, t, limit) == []
  {
    NoneUnpublished(Published(db, t), Size(db, t));
  }

  lemma {:induction false} NoneUnpublished(published: set<nat>, n: nat)
    requires HasAll(published, n)
    ensures Unpublished(published, n) == []
  {
    if n > 0 {
      NoneUnpublished(published, n - 1);
    }
  }
}
