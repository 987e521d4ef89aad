# Invoicing command core: a verified model

This project models the command core of the invoicing service as a state machine over the tables of
its store, together with the outbox relay, the bus inbox, the recurring scheduler, the tax engine and
the text encodings the store relies on, and proves what holds over whole runs of them.

The files follow the program's parts:

- `Money`, `Calendar`, `Text`, `Timestamps`: banker's rounding, dates and instants, number and
  timestamp text, and the byte order in which SQL compares it.
- `Lifecycle`, `Machines`: the invoice state table and its two implementations.
- `Tax`: the rate table, nexus and the resolver.
- `Cadences`: the recurrence calendar and its grammar.
- `Tables`, `Ledger`: the rows, and what each command does to the tables, as a function of the tables
  before it.
- `Commands`: the same commands as methods of a `Store` whose fields they update, each proved equal
  to its function.
- `Invariants`, `Numbering`, `Sorting`, `Outbox`, `Inbox`, `Scheduler`, `Reminders`: what each part keeps.
- `Answers`: exactly when each command succeeds on a sound store, and what it leaves behind, said without the
  command's own definition.
- `Runs`, `Safety`, `NumberRuns`, `InboxRuns`, `CreditRuns`, `ScheduleRuns`, `ScheduleProgress`, `ScheduleLife`,
  `StuckSchedules`: whole runs.
- `Base64Url`, `Utf8`, `SignedLink`, `Placeholders`: the public link tokens and the SQL placeholder rewrite.

A run is any sequence of calls from the empty store. A call is a command, a bus delivery, a schedule
change or a tick, and is a sequence of single transactions; it may stop after any of them. The outside
world of a command is a parameter: the clock, and whether rendering, delivery and the commit succeed.
A delivery runs the inbox insert, the consumer and the processed mark in the order
`crates/bus/src/inbox.rs:18-30` gives them, and may stop between them; the router that calls them is not
part of the repository. A relay pass takes a fault for every one of its steps: it works, it fails without effect, or it fails
after taking effect.

Main results, each over every run:

- **History** is a faithful chain, and the relay replays every row as four messages or one
  (`Safety.HistoryIsFaithful`, `Outbox.EveryRowIsFaithful`).
- **Money** is conserved: paid is the sum of the pay rows, within what the state allows, and totals add
  up to the unit (`Safety.MoneyIsConserved`, `Invariants.IssueAgreesWithDraft`).
- **Replays** under an idempotency key change nothing (`Safety.KeyedSendReplays`, `Safety.KeyedDraftReplays`).
- **Numbers** of a year are exactly 1..n under a clock that never goes back, and over any sequence of
  transactions exactly when every issue is steady; a first-second issue does not break 1..n but closes its
  year (`NumberRuns.NumbersAreGapless`, `NumberRuns.GaplessExactly`, `NumberRuns.MidnightIssueEndsTheYear`).
- **Deliveries** repeated among any other calls are idle, and an event's payment is on record once
  (`InboxRuns.RepeatsAreIdle`, `InboxRuns.OnePaymentPerEvent`).
- **The bus** holds prefixes of rows' messages, complete for every published row
  (`Outbox.RelayExplained`, `Safety.ReachableLedger`).
- **Schedules** get exactly an initial segment of their run dates, are active exactly while their next run is
  within their end, and once caught up have an invoice for exactly the run dates that have come and lie within
  it (`ScheduleRuns.ScheduleIsInvoicedInOrder`, `ScheduleLife.ActiveUntilItsEnd`, `ScheduleLife.CaughtUpExactly`).
- **Commands** succeed exactly when their caller can tell they will (`Answers.PaymentAnswers` and its
  neighbours), and an issued invoice is flagged exactly when a line awaits nexus (`Answers.ReviewIsFlagged`).

## Where the code and its documentation differ

The model follows the code.

- `Viewed + Send` is illegal (`crates/core/src/state/transitions.rs:172`), although
  `crates/commands/src/send.rs:18` says otherwise, and `PartiallyPaid + Void` is legal, although
  `crates/commands/src/void.rs:3-5` speaks of unpaid invoices only.
- Self-edge history rows do occur: a resend of a sent invoice and a further partial payment write one.
  `crates/bus/src/outbox.rs:21-25` says none is ever written.
- `count_invoices_issued_in_year` compares stamps that end in `+00:00` with bounds that end in `Z`, so
  its window is the calendar year shifted by one second. After an issue in the first second of a year the
  next number repeats an earlier one and the UNIQUE column refuses it: the year's numbers stay 1..n, but
  no further invoice of that year can be issued (`NumberRuns.MidnightIssueEndsTheYear`). A gap appears only
  when the clock goes back over a first second (`NumberRuns.ClockBackLeavesGap`); the exact condition is
  `Numbering.CommittedIssueExactly`. In year 9999 the count is always 0, so one invoice is all it takes.
- If an auto-issue commits and the schedule row is not saved, the schedule never moves again in any run,
  and while it is active and due every tick fails on it and runs nothing behind it
  (`StuckSchedules.StuckHoldsUpEveryTick`). Pausing or cancelling it lets the ticks past.
- `rewrite_postgres` can be undone exactly on queries in which no literal `$k` stands where the rewrite
  would put its own (`Placeholders.UnrewriteExactlyClear`).
- `NexusConfig::get` is documented as case-insensitive; it is exactly when every enabled key has its
  uppercase form in the map (`Tax.NexusIgnoresCaseExactly`).

## Model

| member | source | states |
|---|---|---|
| Money.HalfEvenCharacterised | crates/core/src/domain/money.rs:85-87 | the rounding is the banker's one: no integer is nearer, and a tie goes to the even one, both ways |
| Money.RoundWithinHalfUnit | crates/core/src/domain/money.rs:76-87 | rounding moves an amount by at most half a minor unit and lands on the grid |
| Money.RoundExactOnGrid | crates/core/src/domain/money.rs:85-87 | an amount of whole minor units is left alone |
| Money.GridSum | crates/core/src/domain/money.rs:85-87 | sums of rounded amounts need no further rounding |
| Money.RoundMonotone | crates/core/src/domain/money.rs:85-87 | rounding keeps the order of amounts |
| Money.GridExactly | crates/core/src/domain/money.rs:76-87 | the grid is whole units for DZD and hundredths for every other currency |
| Lifecycle.EdgesClimb | crates/core/src/state/transitions.rs:140-196 | a legal edge stays or reaches a state of higher rank |
| Lifecycle.EdgesExactly | crates/core/src/state/transitions.rs:140-196 | which edges there are: issue from Draft, send from Issued, remind and view from Sent, pay and void from the four open states, a payment being full exactly when the sum reaches the total; and the error otherwise |
| Machines.BareMachine.Apply | crates/core/src/state/machine.rs:98-112 | one event: the verdict is the table's, and the state moves only on success |
| Machines.StatigAdapter.Apply | crates/core/src/state/adapter_statig.rs:239-253 | one event: the verdict comes from the shadow, and the inner machine is driven only while it agrees |
| Machines.ParityFrom | crates/core/src/state/adapter_statig.rs:230-253 | from any adapter state the adapter and the bare machine give the same verdicts and states; the inner machine stays equal to the shadow if it was, and stays put in Draft otherwise |
| Machines.Parity | crates/core/src/state/adapter_statig.rs:210-253 | the same from a fresh adapter, for every initial state and event sequence |
| Machines.RunsClimb | crates/core/src/state/transitions.rs:140-196 | over any event sequence the rank never falls and the state moves at most five times |
| Tax.PickRates | crates/core/src/tax/resolver.rs:115-153 | the rows of the category, or the standard rows when a reduced line has none, with the advisory exactly then |
| Tax.Charge | crates/core/src/tax/resolver.rs:255-260 | the accumulation loop computes base times the sum of the rates, and the ids in order |
| Tax.ResolveTax | crates/core/src/tax/resolver.rs:168-363 | fails exactly on an empty country; otherwise amount, ids, review, scope, export and advisories meet the specification |
| Tax.FlagsExplainTheAmount | crates/core/src/tax/resolver.rs:168-363 | review means no tax and no ids; export holds exactly when the countries differ; a taxed line is charged the rounded sum over exactly the matching rows |
| Tax.AdvisoriesExactly | crates/core/src/tax/resolver.rs:115-363 | which advisories a line carries: the fallback exactly when no row of the reduced category accepts it, and the others by scope, seller, rows and region |
| Tax.ScopeExactly | crates/core/src/tax/resolver.rs:86-111 | abroad is another country; local is the seller's own region, or no region at all in Algeria |
| Tax.NexusExactly | crates/core/src/tax/nexus.rs:42-80 | nexus is crossed exactly when the state has an enabled threshold none of whose limits stays unreached by both figures |
| Tax.DecliningRowChangesNothing | crates/core/src/tax/table.rs:107-130 | a row of another seller, country, region, category or time, put anywhere in the table, changes neither tax nor ids nor advisories |
| Tax.AcceptingRowAdds | crates/core/src/tax/table.rs:107-130 | a row that agrees in all five adds its rate of the base and its id |
| Tax.FirstReducedRowReplaces | crates/core/src/tax/resolver.rs:130-141 | and the first reduced row takes the place of the standard ones |
| Tax.TableOrderIsIrrelevant | crates/core/src/tax/table.rs:107-130 | permuting the rate table changes neither amount nor review |
| Tax.ForeignRowsAreIrrelevant | crates/core/src/tax/table.rs:107-130 | rows that do not match, put anywhere, change nothing |
| Tax.GrowsWithFigures | crates/core/src/tax/nexus.rs:42-53 | larger nexus figures never lower the tax when base and rates are not negative |
| Tax.NexusIgnoresCaseExactly | crates/core/src/tax/nexus.rs:76-80 | the nexus decision ignores the ASCII case of the address exactly when every enabled key has its uppercase form in the map |
| Tax.ReviewIgnoresCaseExactly | crates/core/src/tax/resolver.rs:168-363 | and the review flag, for every seller, exactly when every enabled key but Delaware's has it |
| Tax.AddressCaseIsIrrelevant | crates/core/src/tax/resolver.rs:168-363 | on those maps the case changes neither scope nor review nor the rows charged and recorded |
| Cadences.AdvanceRun | crates/core/src/domain/schedule.rs:71-116 | the year-carry branch and loop compute the closed month arithmetic |
| Cadences.AdvanceIsLater | crates/core/src/domain/schedule.rs:71-116 | the next run is a valid later day that fits, at most a year on |
| Cadences.AdvanceIsLeast | crates/core/src/domain/schedule.rs:71-116 | monthly and yearly runs skip no fitting day |
| Cadences.QuarterIsLeast | crates/core/src/domain/schedule.rs:89-105 | a quarterly run is the least later fitting day a whole number of quarters on |
| Cadences.RunClosedForm | crates/core/src/domain/schedule.rs:71-116 | from any start the k-th run is k strides on, or k - 1 when the first falls in the start's own month |
| Cadences.RunsDistinct | crates/core/src/domain/schedule.rs:71-116 | no two runs of a schedule fall on one date |
| Cadences.ParseOfPrint | crates/core/src/domain/schedule.rs:119-161 | the stored text of a cadence reads back as that cadence |
| Cadences.ParseExactly | crates/core/src/domain/schedule.rs:129-161 | a text parses to a cadence exactly when it spells it: prefix, numbers and their ranges |
| Timestamps.DateTextOrder | crates/store/src/repo/schedule.rs:162-176 | for years 0 to 9999 byte order on date text is date order |
| Timestamps.DateTextOrderBreaksAfter9999 | crates/store/src/repo/schedule.rs:162-176 | a date past year 9999 sorts below every four-digit year |
| Timestamps.StampTextOrder | crates/store/src/repo/mod.rs:54-63 | byte order on stored stamps is the order of instants, with 0, 3, 6 or 9 fraction digits mixed |
| Timestamps.YearBoundOrder | crates/commands/src/issue.rs:238-256 | a stored stamp reaches a year's bound only from the second second of the year |
| Timestamps.YearWindowIsShifted | crates/commands/src/issue.rs:238-256 | the window is the year without its first second and with that of the next year |
| Timestamps.YearWindow9999IsEmpty | crates/commands/src/issue.rs:238-256 | no stamp lies in the window of year 9999 |
| Reminders.DueIsExact | crates/store/src/repo/reminder.rs:89-102 | the query finds exactly the scheduled reminders whose instant has come, once each |
| Reminders.DueInTimeOrder | crates/store/src/repo/reminder.rs:89-102 | in the order of their instants |
| Numbering.WindowCount | crates/commands/src/issue.rs:238-256 | the count is the year's rows, less its own first second, plus the next year's |
| Numbering.WindowCount9999 | crates/commands/src/issue.rs:238-256 | in year 9999 nothing is counted |
| Numbering.NumberTextInjective | crates/commands/src/issue.rs:148-151 | different years or counts never print the same number |
| Numbering.NumberTextShape | crates/commands/src/issue.rs:148-151 | prefix, dash, the year, dash, the count, each as decimal digits padded to four |
| Numbering.NextNumberDecided | crates/commands/src/issue.rs:148-151 | on a gapless year the allocator gives n + 1 exactly when the two first seconds hold equally many rows, repeats a number exactly when its own holds more, and otherwise skips ahead |
| Numbering.CommittedIssueExactly | crates/commands/src/issue.rs:148-151 | an issue the UNIQUE column lets through keeps its year 1..n exactly when the next year's first second holds no more rows than its own; in year 9999 always |
| Numbering.IssueKeepsGapless | crates/commands/src/issue.rs:148-151 | with empty first seconds an issue keeps every year gapless |
| Commands.Store.ValidateDraft | crates/commands/src/draft.rs:85-120 | the line loop accepts exactly the valid inputs |
| Commands.Store.DraftLines | crates/commands/src/draft.rs:167-186 | the loop builds the rounded lines and accumulates their sum |
| Commands.Store.DraftInvoice | crates/commands/src/draft.rs:137-273 | the whole new state and result, including the key replay and a failed commit |
| Commands.Store.TaxLine | crates/commands/src/issue.rs:125-142 | one line: tax from the resolver, rounded subtotal, review flag |
| Commands.Store.TaxLines | crates/commands/src/issue.rs:119-146 | the in-place loop: every line taxed, and the three accumulators |
| Commands.Store.IssueInvoice | crates/commands/src/issue.rs:88-234 | the whole new state and result, on every failure path |
| Commands.Store.TryReplay | crates/commands/src/send.rs:488-527 | a recorded key answers with the first destination and writes nothing |
| Commands.Store.PrepareSend | crates/commands/src/send.rs:326-382 | exactly when a send may go on, the state it leads to, and the failure otherwise |
| Commands.Store.FinalizeSend | crates/commands/src/send.rs:392-479 | invoice, history row and idempotency record in one commit, or nothing |
| Commands.Store.SendInvoice | crates/commands/src/send.rs:188-309 | both send paths: scheme guard, replay, prepare, deliver, finalize |
| Commands.Store.ViewInvoice | crates/api/src/handlers/view.rs:40-158 | Sent moves to Viewed once; every other state is only rendered |
| Commands.Store.MarkPaid | crates/commands/src/pay.rs:81-154 | cumulative amount, classified state and pay row in one commit |
| Commands.Store.VoidInvoice | crates/commands/src/void.rs:60-118 | the void edge and its row in one commit |
| Commands.Store.CreateCreditNote | crates/commands/src/credit.rs:79-153 | a draft note of the rounded amount and its row |
| Commands.Store.IssueCreditNote | crates/commands/src/credit.rs:188-257 | number, stamp and row in one commit |
| Commands.Store.CreateSchedule | crates/commands/src/schedule.rs:110-166 | an active row whose next run is its start |
| Commands.Store.TransitionSchedule | crates/commands/src/schedule.rs:209-249 | cancelled is terminal; otherwise the new state is saved |
| Commands.Store.RunSchedule | crates/commands/src/schedule.rs:284-366 | draft, perhaps issue, advance and save, stopping at the first failure |
| Commands.Store.SchedulesTick | crates/commands/src/schedule.rs:274-372 | the loop over the rows read beforehand, and which of them ran |
| Commands.Store.PublishAll | crates/bus/src/outbox.rs:84-91 | the inner loop, for every fault at every step |
| Commands.Store.MarkPublished | crates/store/src/repo/history.rs:102-114 | exactly that row is marked |
| Commands.Store.DrainTable | crates/bus/src/outbox.rs:81-92 | the outer loop over one history table |
| Commands.Store.RunOutboxRelay | crates/bus/src/outbox.rs:74-108 | both tables, with the counters |
| Commands.Store.TryInsert | crates/store/src/repo/bus_inbox.rs:48-81 | new events are inserted unprocessed, known ones answered false |
| Commands.Store.MarkProcessed | crates/store/src/repo/bus_inbox.rs:84-96 | a known event is marked, an unknown one changes nothing |
| Commands.Store.Dispatch | crates/bus/src/consumer.rs:144-266 | each payload runs its one command; what cannot be routed changes nothing |
| Commands.Store.Receive | crates/bus/src/inbox.rs:31-49 | insert, dispatch what is new, mark what succeeded |
| Invariants.ChainAt | crates/store/src/repo/history.rs:38-66 | every row of a chain links to the row before it |
| Invariants.MovesWithinRank | crates/core/src/state/transitions.rs:140-196 | a chained history moved at most as often as its state's rank |
| Invariants.IssueSums | crates/commands/src/issue.rs:119-146 | the line totals sum to the subtotals plus the taxes |
| Invariants.IssueTotals | crates/commands/src/issue.rs:119-146 | subtotal plus tax equals total equals the sum of the line totals, and the subtotal is the draft's |
| Invariants.IssueErrorBound | crates/commands/src/issue.rs:119-146 | the total is within one minor unit per line of the exact amount |
| Invariants.IssueAgreesWithDraft | crates/commands/src/issue.rs:88-234 | both of these, the sum of the stored line totals included, for every issue that succeeds |
| Invariants.DraftKeeps | crates/commands/src/draft.rs:137-273 | a draft keeps every invoice sound |
| Invariants.IssueKeeps | crates/commands/src/issue.rs:88-234 | an issue keeps every invoice sound |
| Invariants.SendKeeps | crates/commands/src/send.rs:188-309 | a send, resend or replay keeps every invoice sound |
| Invariants.ViewKeeps | crates/api/src/handlers/view.rs:40-158 | a view keeps every invoice sound |
| Invariants.PayKeeps | crates/commands/src/pay.rs:81-154 | a payment keeps every invoice sound |
| Invariants.VoidKeeps | crates/commands/src/void.rs:60-118 | a void keeps every invoice sound |
| Answers.PaymentAnswers | crates/commands/src/pay.rs:81-154 | on a sound store a payment succeeds exactly when it is positive, the invoice exists and is Issued, Sent, Viewed or PartiallyPaid, and the commit goes through; else which error, and nothing written |
| Answers.PaymentRecords | crates/commands/src/pay.rs:92-142 | it writes the sum so far, Paid exactly when that reaches the total, and one row at the time received |
| Answers.VoidAnswers | crates/commands/src/void.rs:60-118 | a void succeeds exactly from those four states, and what it writes |
| Answers.ViewAnswers | crates/api/src/handlers/view.rs:40-158 | a view moves exactly a sent invoice and otherwise writes nothing |
| Answers.SendAnswers | crates/commands/src/send.rs:188-309 | a send without a recorded key succeeds exactly on an issued or sent invoice with a usable destination; else the first error that applies |
| Answers.SendRecords | crates/commands/src/send.rs:392-479 | it writes the state, the stamp, the row with the destination really used, and the record of its key |
| Answers.SchemeExactly | crates/commands/src/send.rs:529-535 | the scheme is what stands before the first `://`, in lowercase |
| Answers.DraftIsRefusedExactly | crates/commands/src/draft.rs:85-120 | refused as invalid exactly for want of lines, for its currency or for one bad line |
| Answers.DraftAnswers | crates/commands/src/draft.rs:137-273 | exactly when a draft succeeds, and that a known key answers with its invoice and writes nothing |
| Answers.DraftRecords | crates/commands/src/draft.rs:167-273 | a fresh draft stores customer, seller, currency, key and every line as given, with the sum of its line totals |
| Answers.IssueAnswers | crates/commands/src/issue.rs:88-234 | an issue succeeds exactly on a draft whose buyer has a country, with a free number, a page and a commit |
| Answers.IssueRecords | crates/commands/src/issue.rs:119-228 | number, stamp and row, and every line keeps its item and freezes its own tax, ids and total |
| Answers.ReviewIsFlagged | crates/commands/src/issue.rs:119-161 | the stored flag holds exactly when some line is standard or reduced, the seller is in Delaware, the buyer in the US outside it, and nexus there is not crossed |
| Answers.CreditAnswers | crates/commands/src/credit.rs:79-153 | exactly when a credit note is drafted |
| Answers.CreditRecords | crates/commands/src/credit.rs:79-153 | for that invoice, in its currency, of the amount to the nearest minor unit, under the refund's reference |
| Answers.IssueCreditAnswers | crates/commands/src/credit.rs:188-257 | exactly when one is issued, and what that writes |
| Answers.DispatchSucceedsExactly | crates/bus/src/consumer.rs:144-266 | a bus event goes through exactly when its reference is there and its command has what it needs, in terms of the payload and the store |
| Answers.ChargeIsDrafted | crates/bus/src/consumer.rs:169-208 | a charge drafts its customer, currency and lines, from the named seller or Quebec, under its own key or the event's |
| Answers.PaymentIsBooked | crates/bus/src/consumer.rs:210-239 | a payment is booked with its own amount and time on its own invoice, under the event's id |
| Answers.RefundIsCredited | crates/bus/src/consumer.rs:241-266 | a refund drafts a credit note of its amount on its invoice, under its own id or the event's |
| Outbox.EveryRowIsFaithful | crates/bus/src/outbox.rs:114-240 | each history row yields the triplet exactly when the state moved, with an event of its own tag that the table sends from its from to its to, and then one domain message whose topic names that state |
| Outbox.PendingInInstantOrder | crates/store/src/repo/history.rs:88-99 | a pass takes rows in the order of their instants, and in row order on ties |
| Outbox.PendingTakesTheOldest | crates/store/src/repo/history.rs:88-99 | a limit takes as many rows as it and the backlog allow, and every unpublished row left out goes after every row taken |
| Outbox.RelayExplained | crates/bus/src/outbox.rs:74-108 | for every fault pattern the bus stays a concatenation of prefixes of rows' messages, with a complete list for every published row |
| Outbox.RelayMarksTheOldest | crates/bus/src/outbox.rs:74-108 | whatever fails, a pass marks of each table exactly a first part of the rows it took, all of them if it succeeds, and counts them |
| Outbox.RelayMarksAtMost | crates/bus/src/outbox.rs:74-108 | a limited pass marks at most that many rows of each table |
| Outbox.SuccessfulPassDrainsAll | crates/bus/src/outbox.rs:74-108 | a successful pass whose limit covers the backlog marks every row and counts what it published |
| Outbox.PassAfterDrainIsIdle | crates/bus/src/outbox.rs:74-108 | the next pass publishes nothing, whatever fails |
| Inbox.RepeatsAreIgnored | crates/bus/src/inbox.rs:31-49 | any delivery sequence leaves every table as the sequence without later repeats does |
| Inbox.ProcessedExactly | crates/bus/src/inbox.rs:31-49 | a redelivery changes nothing, and an accepted event ends up processed exactly when its receiver survives the gap after the insert and its command succeeds |
| Inbox.FirstAcceptedDecides | crates/bus/src/inbox.rs:31-49 | in any delivery sequence that first accepted delivery decides |
| Inbox.BusPaymentsCountOnce | crates/bus/src/consumer.rs:210-239 | the bus payments on record are those of distinct accepted events, once each |
| InboxRuns.RepeatsAreIdle | crates/bus/src/inbox.rs:31-49 | dropping every repeated delivery from a run, whatever calls stand between, changes no table |
| InboxRuns.EventIsProcessedExactly | crates/bus/src/inbox.rs:18-30 | among any other calls a new event ends up processed exactly when its first accepted delivery survives and its command succeeds on the store of that moment |
| InboxRuns.OnePaymentPerEvent | crates/bus/src/consumer.rs:210-239 | over any run the rows that carry an event id are one for each payment entered by hand under it and at most one for its delivery, none once it is on record |
| CreditRuns.CreditNotesAreSound | crates/commands/src/credit.rs:79-257 | over any run each credit note is in its invoice's currency, of whole minor units, with a draft row and, exactly when it is issued, an issue row at its stamp |
| CreditRuns.CreditRowsAreAnnounced | crates/bus/src/outbox.rs:264-329 | and the relay announces its draft by one message and its issue by four, with their own topics and states |
| Scheduler.DueIsExact | crates/store/src/repo/schedule.rs:162-176 | the text query finds exactly the active schedules whose next run is not after today, once each |
| Scheduler.DueInDateOrder | crates/store/src/repo/schedule.rs:162-176 | in the order of their run dates |
| Runs.CallIsSteps | crates/commands/src/schedule.rs:274-372 | every call, wherever it stops, is a sequence of the transactions that belong to it |
| Safety.DoGrows | crates/store/src/repo/invoice.rs:65-131 | a transaction never rewrites an issued invoice, a line's item, a history row, an idempotency record or the bus |
| Safety.DoKeepsLedger | crates/commands/src/pay.rs:92-142 | every transaction keeps every invoice sound |
| Safety.RunKeeps | crates/commands/src/schedule.rs:274-372 | every run keeps all invariants and only adds |
| Safety.ReachableLedger | crates/bus/src/outbox.rs:74-108 | every reachable store has sound invoices, unique draft keys, sound send records and an explained bus |
| Safety.HistoryIsFaithful | crates/commands/src/send.rs:345-357 | each invoice's history starts with the draft, continues along edges for its own events (a payment with the cumulative amount) or the resend, and ends in the stored state with its stamp |
| Safety.MoneyIsConserved | crates/commands/src/pay.rs:92-142 | paid is the sum of the pay rows and within what the state allows; subtotal, tax, total and lines add up |
| Safety.IssuedIsFrozen | crates/commands/src/issue.rs:153-161 | number, stamp, totals and lines of an issued invoice survive every run, and the whole of a paid or voided one |
| Safety.AtMostFiveMoves | crates/core/src/state/transitions.rs:140-196 | an invoice moves at most five times in its life |
| Safety.StatesOnlyClimb | crates/core/src/state/transitions.rs:140-196 | over any run an invoice stays or reaches a higher rank |
| Safety.SendKeepsSends | crates/store/src/repo/send_idempotency.rs:52-93 | each record points to a send row of its invoice and destination, and no row answers two records |
| Safety.KeyedSendReplays | crates/commands/src/send.rs:217-221 | after a keyed send, any later one under that key changes nothing, whatever happened between, and answers the first destination exactly when its request is well formed and the page renders |
| Safety.KeyedDraftReplays | crates/commands/src/draft.rs:144-161 | one key names one invoice for ever, and asking again writes nothing |
| NumberRuns.HealthyNumberIsFree | crates/commands/src/issue.rs:148-151 | away from first seconds the next number is count plus one and nobody holds it |
| NumberRuns.GaplessExactly | crates/commands/src/issue.rs:148-151 | over any sequence of transactions every year stays 1..n throughout exactly when every committed issue is steady, for invoices and credit notes |
| NumberRuns.NumbersAreGapless | crates/commands/src/issue.rs:148-151 | over any run under a clock that never goes back the numbers of every year are exactly 1..n, for invoices and credit notes |
| NumberRuns.CalmRunsAreGapless | crates/commands/src/credit.rs:207-214 | and over any run with no issue in a first second, whatever the clock does otherwise |
| NumberRuns.ClockBackLeavesGap | crates/commands/src/issue.rs:238-256 | a run from the empty store whose clock goes back over New Year gives the only invoice of 2027 the number 2 |
| NumberRuns.NumbersAreUnique | crates/commands/src/credit.rs:207-214 | over all runs no number is held twice |
| NumberRuns.MidnightIssueEndsTheYear | crates/commands/src/issue.rs:238-256 | after one issue in a first second no run issues another invoice in that year, and every attempt leaves the store alone |
| NumberRuns.MidnightIssueHappens | crates/commands/src/issue.rs:88-234 | such a run exists from the empty store |
| ScheduleRuns.RunKeyInjective | crates/commands/src/schedule.rs:310-313 | run keys of different schedules or dates differ |
| ScheduleRuns.RunOneKeeps | crates/commands/src/schedule.rs:284-366 | one schedule's turn, stopped anywhere, keeps every schedule on its runs |
| ScheduleRuns.ScheduleIsInvoicedInOrder | crates/commands/src/schedule.rs:274-372 | over any run the invoices of a schedule are exactly its first n runs, one each, none after its end or after the latest tick |
| ScheduleProgress.TickLowersMeasure | crates/commands/src/schedule.rs:274-372 | whatever fails, a tick lowers the measure by at least the schedules it ran |
| ScheduleProgress.GoodTick | crates/commands/src/schedule.rs:274-372 | from a sound store a tick in a world without failures succeeds and leaves a sound store |
| ScheduleProgress.TicksCatchUp | crates/commands/src/schedule.rs:274-372 | repeated at one date, such ticks leave no active schedule due |
| ScheduleProgress.RunsCatchUp | crates/commands/src/schedule.rs:274-372 | the same after any run of calls, given only that every due schedule's template and current invoice can be issued |
| ScheduleProgress.TurnSucceedsUnlessStuck | crates/commands/src/schedule.rs:319-338 | a turn nothing outside stops succeeds exactly when its run has no invoice past Draft |
| ScheduleProgress.StuckTurnFails | crates/commands/src/schedule.rs:319-338 | otherwise every turn fails and changes nothing |
| ScheduleProgress.StuckScheduleBlocksTheTick | crates/commands/src/schedule.rs:284-366 | and a tick that reaches it first runs nothing |
| ScheduleProgress.LostSaveSticks | crates/commands/src/schedule.rs:321-361 | an auto-issue whose save is lost leads there |
| ScheduleLife.TermsAreRefusedExactly | crates/commands/src/schedule.rs:72-98 | terms are refused exactly for want of lines, for a bad quantity or price, or for an end before the start |
| ScheduleLife.ScheduleKeepsItsTerms | crates/commands/src/schedule.rs:110-166 | exactly when a schedule is created, and over every later run it keeps the terms it was created with |
| ScheduleLife.ChangeAnswers | crates/commands/src/schedule.rs:209-249 | exactly when a state change succeeds, and that only the state changes |
| ScheduleLife.ActiveUntilItsEnd | crates/commands/src/schedule.rs:341-361 | over any run in which nobody sets its state, a schedule is active exactly while its next run is within its end |
| ScheduleLife.CaughtUpExactly | crates/commands/src/schedule.rs:274-372 | after any such run and enough ticks it has an invoice for exactly the run dates that have come and lie within its end |
| ScheduleLife.InactiveGetsNothing | crates/store/src/repo/schedule.rs:162-176 | a cancelled schedule, and a paused one until somebody sets its state, stays as it is and gets no further invoice |
| ScheduleLife.ScheduledInvoicesFollowTheTemplate | crates/commands/src/schedule.rs:289-323 | over any run every invoice of a schedule is for its customer, from Quebec, in its currency, with its lines one for one |
| ScheduleLife.TurnIssuesOnDemand | crates/commands/src/schedule.rs:284-366 | a fresh turn that succeeds adds one invoice, issued exactly if the schedule asks for it |
| StuckSchedules.StuckForGood | crates/commands/src/schedule.rs:284-366 | over any run a stuck schedule keeps its place and stays stuck; only its state can change |
| StuckSchedules.StuckHoldsUpEveryTick | crates/commands/src/schedule.rs:274-372 | after any run, every tick that finds it due fails and runs at most the schedules due before it; it is due exactly while it is active and its date has come |
| StuckSchedules.StuckHappens | crates/commands/src/schedule.rs:321-361 | a run of three calls from the empty store gets there |
| Base64Url.DecodeOfEncode | crates/api/src/signed_link.rs:33 | decoding gives back the encoded bytes |
| Base64Url.EncodeOfDecode | crates/api/src/signed_link.rs:75-77 | only the encoder's own spelling decodes |
| Base64Url.GroupIsOneNumber | crates/api/src/signed_link.rs:33 | three bytes and their four symbols spell one number, and a shorter rest is cut from its zero-padded group |
| Base64Url.AlphabetExactly | crates/api/src/signed_link.rs:33 | in the URL-safe alphabet |
| SignedLink.HexLower | crates/api/src/signed_link.rs:129-137 | the loop writes two digits a byte, high first |
| SignedLink.HexExactly | crates/api/src/signed_link.rs:129-137 | byte by byte, two lowercase digits, the high one first |
| SignedLink.HexInjective | crates/api/src/signed_link.rs:129-137 | two digests with one text are equal |
| SignedLink.ConstantTimeEq | crates/api/src/signed_link.rs:139-148 | the XOR/OR loop decides equality |
| SignedLink.Verify | crates/api/src/signed_link.rs:70-97 | the checks in their order, with that loop, give the specified answer |
| SignedLink.SignThenVerify | crates/api/src/signed_link.rs:28-97 | a signed token verifies to its id and expiry before the expiry and to Expired after it, and never when the id holds a colon |
| SignedLink.AcceptedTokens | crates/api/src/signed_link.rs:70-97 | a string is accepted for an id and expiry exactly when it is a token of them under this key |
| Placeholders.RewritePostgres | crates/store/src/sql.rs:72-86 | the counting loop computes the specified rewrite |
| Placeholders.UnrewriteExactlyClear | crates/store/src/sql.rs:72-86 | the rewrite can be undone exactly on queries in which no literal `$k` stands where its own would |
| Placeholders.UnclearIsAmbiguous | crates/store/src/sql.rs:72-86 | every other query shares its rewrite with a different one |
| Placeholders.UnrewriteOfRewrite | crates/store/src/sql.rs:72-86 | so it can be undone on all SQL without a dollar sign |
| Placeholders.NoMarksRemain | crates/store/src/sql.rs:72-86 | no question mark remains |
| Placeholders.KthBecomesDollarK | crates/store/src/sql.rs:72-86 | the k-th question mark becomes `$k` and its surroundings are rewritten on their own |

## Left out

- Overlapping commands: the code reads before it opens its transaction, so two commands at once can
  lose an update. Runs here are serial; only ticks, deliveries and relay passes may stop half way.
- `Decimal` overflow and its 28-digit truncation: amounts are exact reals.
- Row ids are positions in their tables; the random part of a TypeID is not modelled.
- Rows with equal sort keys are taken in table order, which SQL leaves open.
- Years before 0 and after 9999 for instants, and leap seconds.
- NumberRuns.CalmRunsAreGapless: takes issue instants before year 9999, where the allocator offers only
  its first number; the other results on numbers cover that year too.
- ScheduleRuns.ScheduleIsInvoicedInOrder: takes ticks up to year 9998, schedules that start in years
  0 to 9999, and callers who leave keys of the form `schedule:` and the schedules table to the
  scheduler; past year 9999 the date text sorts the wrong way (`Timestamps.DateTextOrderBreaksAfter9999`).
- ScheduleLife.CaughtUpExactly: takes the same ticks and callers, and templates that can be issued, as
  `ScheduleProgress.RunsCatchUp` does; a stuck schedule never catches up.
- NumberRuns.MidnightIssueEndsTheYear: is stated for invoices; credit notes use the same allocator and
  the lemmas on its column hold for both prefixes.
- The text of the tax advisories: they are kinds.
- Columns that no property needs: actor, channel, reason, due date, template path, blob reference,
  free metadata, created and updated stamps.
- Rendering, delivery, blob storage and file sinks: each is a success or failure of the command's world.
- Synchronous publishing beside the outbox, and the broadcast channel: best effort.
- JSON decoding of bus payloads and topic remapping: a payload is decoded or cannot be routed.
- SHA-256 and HMAC: the keyed digest is a parameter, and nothing is assumed of it.
- `Currency::new`, filters and listing queries, enum and string tables, error codes: easy members.
- Scheduling and cancelling reminders and the overdue scan: easy members.
- The HTTP, WebSocket, MCP and command-line adapters, authentication and process start.
