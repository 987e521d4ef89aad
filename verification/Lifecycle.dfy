/** The invoice state machine (crates/core/src/state/transitions.rs). */
module Lifecycle {
  import opened Wrappers

  datatype State = Draft | Issued | Sent | Viewed | PartiallyPaid | Paid | Voided

  /** `Pay` carries the cumulative amount paid after the payment, and the invoice total. */
  datatype Event = Issue | Send | Remind | View | Pay(amountPaid: real, total: real) | Void

  datatype TransitionError = Illegal(state: State, event: string) | NonPositivePayment(amountPaid: real)

  datatype PaymentKind = Full | Partial

  /** The audit tag of an event. */
  function Tag(e: Event): string {
    match e
    case Issue => "issue"
    case Send => "send"
    case Remind => "remind"
    case View => "view"
    case Pay(_, _) => "pay"
    case Void => "void"
  }

  function ClassifyPayment(amountPaid: real, total: real): Result<PaymentKind, TransitionError> {
    if amountPaid <= 0.0 then Failure(NonPositivePayment(amountPaid))
    else if amountPaid >= total then Success(Full)
    else Success(Partial)
  }

  function PaidState(amountPaid: real, total: real): Result<State, TransitionError> {
    match ClassifyPayment(amountPaid, total)
    case Failure(e) => Failure(e)
    case Success(Full) => Success(Paid)
    case Success(Partial) => Success(PartiallyPaid)
  }

  function NextState(current: State, event: Event): Result<State, TransitionError> {
    match (current, event)
    case (Draft, Issue) => Success(Issued)
    case (Issued, Send) => Success(Sent)
    case (Issued, Pay(paid, total)) => PaidState(paid, total)
    case (Issued, Void) => Success(Voided)
    case (Sent, Remind) => Success(Sent)
    case (Sent, View) => Success(Viewed)
    case (Sent, Pay(paid, total)) => PaidState(paid, total)
    case (Sent, Void) => Success(Voided)
    case (Viewed, Pay(paid, total)) => PaidState(paid, total)
    case (Viewed, Void) => Success(Voided)
    case (PartiallyPaid, Pay(paid, total)) => PaidState(paid, total)
    case (PartiallyPaid, Void) => Success(Voided)
    case (_, _) => Failure(Illegal(current, Tag(event)))
  }

  /** How far along its life an invoice is. */
  function Rank(s: State): (r: nat)
    ensures r <= 5
  {
    match s
    case Draft => 0
    case Issued => 1
    case Sent => 2
    case Viewed => 3
    case PartiallyPaid => 4
    case Paid => 5
    case Voided => 5
  }

  /** A legal edge never lowers the rank, and keeps it only when the state stays the same. */
  lemma EdgesClimb(s: State, e: Event)
    requires NextState(s, e).Success?
    ensures NextState(s, e).value == s || Rank(s) < Rank(NextState(s, e).value)
  {
  }

  /** Issued, and neither paid in full nor voided. */
  predicate Open(s: State) {
    s == Issued || s == Sent || s == Viewed || s == PartiallyPaid
  }

  /** When an event may happen. */
  predicate MayHappen(s: State, e: Event) {
    match e
    case Issue => s == Draft
    case Send => s == Issued
    case Remind => s == Sent
    case View => s == Sent
    case Pay(paid, _) => Open(s) && paid > 0.0
    case Void => Open(s)
  }

  /** Where it leads. */
  function Outcome(e: Event): State {
    match e
    case Issue => Issued
    case Send => Sent
    case Remind => Sent
    case View => Viewed
    case Pay(paid, total) => if paid >= total then Paid else PartiallyPaid
    case Void => Voided
  }

  /** Which edges there are, event by event, and what the table answers where there is none. */
  lemma EdgesExactly(s: State, e: Event)
    ensures NextState(s, e) == if MayHappen(s, e) then Success(Outcome(e))
                               else if e.Pay? && Open(s) then Failure(NonPositivePayment(e.amountPaid))
                               else Failure(Illegal(s, Tag(e)))
  {
  }
}
