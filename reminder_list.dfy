/** The reminder editor inside the time-range section
    (src/components/builder/ReminderList.tsx). Each handler maps over the list,
    changing only the reminder with the given id, or filters it out. */
module ReminderList {
  import opened Types
  import Seqs
  import TRS = TimeRangeSelector

  /** The reminders' ids, in order. */
  function ReminderIds(s: seq<Reminder>): (r: seq<string>)
    ensures |r| == |s| && forall i :: 0 <= i < |s| ==> r[i] == s[i].id
  {
    Seqs.Map(s, (x: Reminder) => x.id)
  }

  /** `handleChannelChange`. */
  function ChangeChannel(s: seq<Reminder>, reminderId: string, channel: ReminderChannel): (r: seq<Reminder>)
    ensures |r| == |s|
    ensures forall i :: 0 <= i < |s| ==>
              r[i] == (if s[i].id == reminderId then s[i].(channel := channel) else s[i])
  {
    if |s| == 0 then []
    else [if s[0].id == reminderId then s[0].(channel := channel) else s[0]] + ChangeChannel(s[1..], reminderId, channel)
  }

  /** The frequency fields a reminder gets when its frequency is changed: "every
      x days" keeps a nonzero day count or uses 3, "once" drops it. */
  function WithFrequency(r: Reminder, frequency: ReminderFrequency): (r': Reminder)
    ensures r'.frequencyType == frequency
    ensures frequency == EveryXDays ==> r'.frequencyDays == Some(OrElse(r.frequencyDays, 3))
    ensures frequency == Once ==> r'.frequencyDays.None?
    ensures r'.id == r.id && r'.channel == r.channel && r'.order == r.order
  {
    r.(frequencyType := frequency, frequencyDays := if frequency == EveryXDays then Some(OrElse(r.frequencyDays, 3)) else None)
  }

  /** `handleFrequencyChange`. */
  function ChangeFrequency(s: seq<Reminder>, reminderId: string, frequency: ReminderFrequency): (r: seq<Reminder>)
    ensures |r| == |s|
    ensures forall i :: 0 <= i < |s| ==>
              r[i] == (if s[i].id == reminderId then WithFrequency(s[i], frequency) else s[i])
  {
    if |s| == 0 then []
    else [if s[0].id == reminderId then WithFrequency(s[0], frequency) else s[0]]
         + ChangeFrequency(s[1..], reminderId, frequency)
  }

  /** `handleFrequencyDaysChange`. */
  function ChangeFrequencyDays(s: seq<Reminder>, reminderId: string, days: int): (r: seq<Reminder>)
    ensures |r| == |s|
    ensures forall i :: 0 <= i < |s| ==>
              r[i] == (if s[i].id == reminderId then s[i].(frequencyDays := Some(days)) else s[i])
  {
    if |s| == 0 then []
    else [if s[0].id == reminderId then s[0].(frequencyDays := Some(days)) else s[0]]
         + ChangeFrequencyDays(s[1..], reminderId, days)
  }

  /** `handleDelete`: every reminder with the id goes; the rest keep their
      order and their `order` fields, which are not renumbered. */
  function Delete(s: seq<Reminder>, reminderId: string): (r: seq<Reminder>)
    ensures forall x :: x in r <==> x in s && x.id != reminderId
    ensures |r| <= |s|
  {
    Seqs.Filter(s, (x: Reminder) => x.id != reminderId)
  }

  /** The days field's handler argument: `parseInt(value) || 3`. */
  function ParseFrequencyDays(e: TRS.Entry): (days: int)
    ensures days != 0
    ensures e.Parsed? && e.n != 0 ==> days == e.n
    ensures !(e.Parsed? && e.n != 0) ==> days == 3
  {
    match e
    case Parsed(n) => if n != 0 then n else 3
    case _ => 3
  }

  /** No map handler adds, drops or reorders reminders: the id list is unchanged. */
  lemma EditsKeepIds(s: seq<Reminder>, reminderId: string, channel: ReminderChannel,
                     frequency: ReminderFrequency, days: int)
    ensures ReminderIds(ChangeChannel(s, reminderId, channel)) == ReminderIds(s)
    ensures ReminderIds(ChangeFrequency(s, reminderId, frequency)) == ReminderIds(s)
    ensures ReminderIds(ChangeFrequencyDays(s, reminderId, days)) == ReminderIds(s)
  {
  }

  /** Switching to "every x days" and back to "once" leaves no day count, and
      switching to "every x days" twice keeps the first count. */
  lemma FrequencyRoundTrip(s: seq<Reminder>, reminderId: string)
    ensures ChangeFrequency(ChangeFrequency(s, reminderId, EveryXDays), reminderId, Once)
         == ChangeFrequency(s, reminderId, Once)
    ensures ChangeFrequency(ChangeFrequency(s, reminderId, EveryXDays), reminderId, EveryXDays)
         == ChangeFrequency(s, reminderId, EveryXDays)
  {
    var a := ChangeFrequency(ChangeFrequency(s, reminderId, EveryXDays), reminderId, Once);
    var b := ChangeFrequency(s, reminderId, Once);
    assert forall i :: 0 <= i < |s| ==> a[i] == b[i];
    var c := ChangeFrequency(ChangeFrequency(s, reminderId, EveryXDays), reminderId, EveryXDays);
    var d := ChangeFrequency(s, reminderId, EveryXDays);
    assert forall i :: 0 <= i < |s| ==> c[i] == d[i];
  }

  /** A delete works reminder by reminder and keeps the order of what it keeps:
      it splits over concatenation, and a single reminder stays exactly when its
      id differs. With `Delete([], id) == []` this fixes the whole result. */
  lemma DeleteInOrder(a: seq<Reminder>, b: seq<Reminder>, x: Reminder, reminderId: string)
    ensures Delete(a + b, reminderId) == Delete(a, reminderId) + Delete(b, reminderId)
    ensures Delete([x], reminderId) == if x.id != reminderId then [x] else []
  {
    var p := (y: Reminder) => y.id != reminderId;
    Seqs.FilterAppend(a, b, p);
    Seqs.FilterSingleton(x, p);
  }

  /** Reminders without the id are untouched by a delete, in the same relative order. */
  lemma {:induction false} DeleteKeepsOthers(s: seq<Reminder>, reminderId: string)
    requires forall i :: 0 <= i < |s| ==> s[i].id != reminderId
    ensures Delete(s, reminderId) == s
  {
    Seqs.FilterAll(s, (x: Reminder) => x.id != reminderId);
  }

  /** Deleting a reminder just added with a fresh id gives back the old list. */
  lemma DeleteUndoesAdd(s: seq<Reminder>, added: Reminder)
    requires forall i :: 0 <= i < |s| ==> s[i].id != added.id
    ensures Delete(s + [added], added.id) == s
  {
    var p := (x: Reminder) => x.id != added.id;
    Seqs.FilterAppend(s, [added], p);
    Seqs.FilterAll(s, p);
    assert Seqs.Filter([added], p) == [];
  }
}
