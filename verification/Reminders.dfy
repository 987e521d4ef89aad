/** Which reminders are due: a text comparison on the timestamp column (crates/store/src/repo/reminder.rs). */
module Reminders {
  import opened Calendar
  import opened Text
  import opened Timestamps
  import opened Sorting

  datatype ReminderState = Scheduled | Dispatched | Withdrawn

  datatype Reminder = Reminder(invoice: nat, scheduledAt: Instant, state: ReminderState)

  predicate DueText(r: Reminder, cutoff: Instant) {
    r.state == Scheduled && LexAtMost(StampText(r.scheduledAt), StampText(cutoff))
  }

  function DueFlags(reminders: seq<Reminder>, cutoff: Instant): (keep: seq<bool>)
    ensures |keep| == |reminders|
    ensures forall i :: 0 <= i < |keep| ==> keep[i] == DueText(reminders[i], cutoff)
  {
    seq(|reminders|, i requires 0 <= i < |reminders| => DueText(reminders[i], cutoff))
  }

  function TimeKeys(reminders: seq<Reminder>): (keys: seq<string>)
    ensures |keys| == |reminders|
    ensures forall i :: 0 <= i < |keys| ==> keys[i] == StampText(reminders[i].scheduledAt)
  {
    seq(|reminders|, i requires 0 <= i < |reminders| => StampText(reminders[i].scheduledAt))
  }

  /** `ReminderRepo::due` */
  function Due(reminders: seq<Reminder>, cutoff: Instant): seq<nat> {
    SortIds(TimeKeys(reminders), Selected(DueFlags(reminders, cutoff), |reminders|))
  }

  /** The instant has come. */
  predicate HasCome(at: Instant, cutoff: Instant) {
    at == cutoff || StampBefore(at, cutoff)
  }

  /** The query finds exactly the scheduled reminders whose instant has come, once each. */
  lemma DueIsExact(reminders: seq<Reminder>, cutoff: Instant, id: nat)
    ensures id in Due(reminders, cutoff)
       <==> id < |reminders| && reminders[id].state == Scheduled && HasCome(reminders[id].scheduledAt, cutoff)
    ensures Distinct(Due(reminders, cutoff))
  {
    hide SortIds, StampText, LexLess, StampBefore;
    var all := Selected(DueFlags(reminders, cutoff), |reminders|);
    SortIdsDistinct(TimeKeys(reminders), all);
    assert id in all <==> id < |reminders| && DueText(reminders[id], cutoff);
    if id < |reminders| {
      StampTextOrder(reminders[id].scheduledAt, cutoff);
    }
  }

  /** And gives them in the order of their instants, whatever the fraction widths. */
  lemma DueInTimeOrder(reminders: seq<Reminder>, cutoff: Instant, i: nat, j: nat)
    requires i < j < |Due(reminders, cutoff)|
    ensures var a, b := Due(reminders, cutoff)[i], Due(reminders, cutoff)[j];
            a < |reminders| && b < |reminders| && HasCome(reminders[a].scheduledAt, reminders[b].scheduledAt)
  {
    hide Due, StampText, LexLess, StampBefore;
    var a, b := Due(reminders, cutoff)[i], Due(reminders, cutoff)[j];
    DueIsExact(reminders, cutoff, a);
    DueIsExact(reminders, cutoff, b);
    DueIsSorted(reminders, cutoff);
    assert LexAtMost(KeyOf(TimeKeys(reminders), a), KeyOf(TimeKeys(reminders), b));
    StampTextOrder(reminders[a].scheduledAt, reminders[b].scheduledAt);
  }

  lemma DueIsSorted(reminders: seq<Reminder>, cutoff: Instant)
    ensures Sorted(TimeKeys(reminders), Due(reminders, cutoff))
  {
    SortIdsSorted(TimeKeys(reminders), Selected(DueFlags(reminders, cutoff), |reminders|));
  }
}
