/** Deadline resolution, the action status classifier and the checklist's
    time-frame and progress texts (src/lib/checklistUtils.ts). */
module ChecklistUtils {
  import opened Types
  import opened Strings

  /** `calculateDeadline`: the deadline of `action` given the journey anchor and,
      when known, the completion time of the previous action. */
  function CalculateDeadline(action: Action, entryCompletedAt: Instant,
                             previousActionCompletedAt: Option<Instant>): (r: Option<Instant>)
    ensures action.timeRange.kind == NoDeadline ==> r.None?
    ensures action.timeRange.kind == Absolute ==>
      r == Some(AddDays(entryCompletedAt, OrElse(action.timeRange.durationDays, 0)))
    ensures action.timeRange.kind == WithPrevious ==>
      (r.None? <==> previousActionCompletedAt.None?) &&
      (previousActionCompletedAt.Some? ==>
         r == Some(AddDays(previousActionCompletedAt.value, OrElse(action.timeRange.offsetDays, 0))))
  {
    match action.timeRange.kind
    case NoDeadline => None
    case Absolute => Some(AddDays(entryCompletedAt, OrElse(action.timeRange.durationDays, 0)))
    case WithPrevious =>
      match previousActionCompletedAt
      case None => None
      case Some(prev) => Some(AddDays(prev, OrElse(action.timeRange.offsetDays, 0)))
  }

  /** An `ABSOLUTE` deadline does not depend on the previous action's completion. */
  lemma AbsoluteIgnoresPrevious(action: Action, entry: Instant, p1: Option<Instant>, p2: Option<Instant>)
    requires action.timeRange.kind == Absolute
    ensures CalculateDeadline(action, entry, p1) == CalculateDeadline(action, entry, p2)
    ensures CalculateDeadline(action, entry, p1).Some?
  {
  }

  /** A counter action that has started but not reached its (truthy) required count. */
  predicate CounterInProgress(action: Action, currentCount: Option<int>) {
    && action.completionMode == Counter
    && currentCount.Some?
    && currentCount.value > 0
    && Truthy(action.requiredCount)
    && currentCount.value < action.requiredCount.value
  }

  /** A counter action whose count reached its (truthy) required count. */
  predicate CounterMet(action: Action, currentCount: Option<int>) {
    && action.completionMode == Counter
    && currentCount.Some?
    && Truthy(action.requiredCount)
    && currentCount.value >= action.requiredCount.value
  }

  /** `deadline && currentTime > deadline`: strictly after, never at the deadline. */
  predicate PastDeadline(deadline: Option<Instant>, currentTime: Instant) {
    deadline.Some? && currentTime > deadline.value
  }

  /** `getActionStatus`: first match wins, in the order completion, counter in
      progress, counter met, deadline passed. */
  function GetActionStatus(action: Action, deadline: Option<Instant>, currentTime: Instant,
                           completedAt: Option<Instant>, currentCount: Option<int>): (r: ActionStatus)
    ensures r == Done <==> completedAt.Some? || CounterMet(action, currentCount)
    ensures r == InProgress <==> completedAt.None? && CounterInProgress(action, currentCount)
    ensures r == Overdue <==>
      && completedAt.None?
      && !CounterInProgress(action, currentCount)
      && !CounterMet(action, currentCount)
      && PastDeadline(deadline, currentTime)
  {
    if completedAt.Some? then Done
    else if action.completionMode == Counter && currentCount.Some? &&
            currentCount.value > 0 && Truthy(action.requiredCount) &&
            currentCount.value < action.requiredCount.value then InProgress
    else if action.completionMode == Counter && currentCount.Some? &&
            Truthy(action.requiredCount) && currentCount.value >= action.requiredCount.value then Done
    else if deadline.Some? && currentTime > deadline.value then Overdue
    else NotDone
  }

  /** Completion is sticky: whatever the deadline, time and count. */
  lemma CompletedIsDone(action: Action, deadline: Option<Instant>, t: Instant, c: Instant, n: Option<int>)
    ensures GetActionStatus(action, deadline, t, Some(c), n) == Done
  {
  }

  /** A started counter below its threshold is `IN_PROGRESS` even after its deadline. */
  lemma CounterInProgressBeatsDeadline(action: Action, deadline: Instant, t: Instant, n: int)
    requires action.completionMode == Counter && Truthy(action.requiredCount)
    requires 0 < n < action.requiredCount.value
    requires t > deadline
    ensures GetActionStatus(action, Some(deadline), t, None, Some(n)) == InProgress
  {
  }

  /** With no completion and no counter rule in force: overdue exactly when
      strictly past the deadline; at the deadline itself the action is not done. */
  lemma OverdueIffStrictlyPast(action: Action, deadline: Option<Instant>, t: Instant, n: Option<int>)
    requires !CounterInProgress(action, n) && !CounterMet(action, n)
    ensures GetActionStatus(action, deadline, t, None, n) == Overdue <==> PastDeadline(deadline, t)
    ensures deadline.Some? && t == deadline.value ==> GetActionStatus(action, deadline, t, None, n) == NotDone
  {
  }

  /** What the checklist says about a deadline, before it is rendered. */
  datatype TimeFrame =
    | NoDeadlineFrame
    | PendingPrevious
    | OverdueByDays(days: int)
    | OverdueToday
    | DueToday
    | DueInDays(days: int)
    | DueInWeeks(weeks: int, remainder: int)
    | DueOn(formatted: string)

  /** The case analysis of `formatTimeFrame`. `daysDiff` and `hoursDiff` are what
      date-fns' `differenceInDays`/`differenceInHours` give for deadline minus
      now; `formattedDeadline` is the deadline as `format(deadline, 'MMM d, yyyy')`. */
  function ClassifyTimeFrame(action: Action, deadline: Option<Instant>, daysDiff: int, hoursDiff: int,
                             formattedDeadline: string): (r: TimeFrame)
    ensures action.timeRange.kind == NoDeadline <==> r == NoDeadlineFrame
    ensures r == PendingPrevious <==> action.timeRange.kind != NoDeadline && deadline.None?
    ensures r.OverdueByDays? ==> daysDiff < 0 && r.days == -daysDiff && r.days >= 1
    ensures r.OverdueToday? || r.DueToday? ==> daysDiff == 0 && (r.OverdueToday? <==> hoursDiff < 0)
    ensures r.DueInDays? ==> r.days == daysDiff && 1 <= daysDiff <= 7
    ensures r.DueInWeeks? ==>
      && 8 <= daysDiff <= 30
      && r.weeks * 7 + r.remainder == daysDiff
      && 0 <= r.remainder < 7
      && 1 <= r.weeks <= 4
    ensures r.DueOn? ==> daysDiff > 30 && r.formatted == formattedDeadline
    ensures action.timeRange.kind != NoDeadline && deadline.Some? ==>
      && (r.OverdueByDays? <==> daysDiff < 0)
      && (r.DueInWeeks? <==> 8 <= daysDiff <= 30)
  {
    if action.timeRange.kind == NoDeadline then NoDeadlineFrame
    else if deadline.None? then PendingPrevious
    else if daysDiff < 0 then OverdueByDays(-daysDiff)
    else if daysDiff == 0 then (if hoursDiff < 0 then OverdueToday else DueToday)
    else if daysDiff <= 7 then DueInDays(daysDiff)
    else if daysDiff <= 30 then DueInWeeks(daysDiff / 7, daysDiff % 7)
    else DueOn(formattedDeadline)
  }

  function Plural(n: int, unit: string): string {
    if n > 1 then unit + "s" else unit
  }

  /** The text of a time frame. The special texts for one day fit the general
      pattern: a count of days renders as its numeral and a day word in
      agreement with it. */
  function RenderTimeFrame(tf: TimeFrame): (r: string)
    ensures tf.OverdueByDays? && tf.days >= 1 ==>
              r == "Overdue by " + NatToString(tf.days) + (if tf.days == 1 then " day" else " days")
    ensures tf.DueInDays? && tf.days >= 1 ==>
              r == "Due in " + NatToString(tf.days) + (if tf.days == 1 then " day" else " days")
  {
    assert NatToString(1) == "1";
    match tf
    case NoDeadlineFrame => "No deadline"
    case PendingPrevious => "Pending previous action"
    case OverdueByDays(n) => if n == 1 then "Overdue by 1 day" else "Overdue by " + IntToString(n) + " days"
    case OverdueToday => "Overdue"
    case DueToday => "Due today"
    case DueInDays(n) => if n == 1 then "Due in 1 day" else "Due in " + IntToString(n) + " days"
    case DueInWeeks(w, 0) => if w == 1 then "Due in 1 week" else "Due in " + IntToString(w) + " weeks"
    case DueInWeeks(w, d) =>
      "Due in " + IntToString(w) + " " + Plural(w, "week") + " and " + IntToString(d) + " " + Plural(d, "day")
    case DueOn(s) => "Due: " + s
  }

  /** `formatTimeFrame`. */
  function FormatTimeFrame(action: Action, deadline: Option<Instant>, daysDiff: int, hoursDiff: int,
                           formattedDeadline: string): (r: string)
    ensures action.timeRange.kind == NoDeadline ==> r == "No deadline"
    ensures action.timeRange.kind != NoDeadline && deadline.None? ==> r == "Pending previous action"
  {
    RenderTimeFrame(ClassifyTimeFrame(action, deadline, daysDiff, hoursDiff, formattedDeadline))
  }

  /** Two texts made of a common prefix, a numeral and a suffix that starts with
      a non-digit can only be equal when the numerals are equal. */
  lemma {:induction false} NumeralSplitUnique(a: string, x: string, b: string, y: string)
    requires AllDigits(a) && AllDigits(b)
    requires |x| > 0 && !IsDigit(x[0]) && |y| > 0 && !IsDigit(y[0])
    requires a + x == b + y
    ensures a == b && x == y
  {
    var k := if |a| <= |b| then |a| else |b|;
    assert (a + x)[k] == (b + y)[k];
    assert |a| == |b|;
    assert a == (a + x)[..|a|];
    assert b == (b + y)[..|b|];
    assert x == (a + x)[|a|..];
    assert y == (b + y)[|b|..];
  }

  lemma NumberedTextsDistinct(p: string, m: nat, n: nat, x: string, y: string)
    requires m != n
    requires |x| > 0 && !IsDigit(x[0]) && |y| > 0 && !IsDigit(y[0])
    ensures p + NatToString(m) + x != p + NatToString(n) + y
  {
    if p + NatToString(m) + x == p + NatToString(n) + y {
      assert (p + NatToString(m) + x)[|p|..] == NatToString(m) + x;
      assert (p + NatToString(n) + y)[|p|..] == NatToString(n) + y;
      NumeralSplitUnique(NatToString(m), x, NatToString(n), y);
      NatToStringInjective(m, n);
    }
  }

  /** The overdue text tells how many days late the action is: different day
      differences below zero give different texts. */
  lemma OverdueTextsDistinct(action: Action, deadline: Instant, d1: int, d2: int, h1: int, h2: int, f: string)
    requires action.timeRange.kind != NoDeadline
    requires d1 < 0 && d2 < 0 && d1 != d2
    ensures FormatTimeFrame(action, Some(deadline), d1, h1, f) != FormatTimeFrame(action, Some(deadline), d2, h2, f)
  {
    var n1, n2 := -d1, -d2;
    var t1 := FormatTimeFrame(action, Some(deadline), d1, h1, f);
    var t2 := FormatTimeFrame(action, Some(deadline), d2, h2, f);
    assert NatToString(1) == "1";
    assert t1 == "Overdue by " + NatToString(n1) + (if n1 == 1 then " day" else " days");
    assert t2 == "Overdue by " + NatToString(n2) + (if n2 == 1 then " day" else " days");
    NumberedTextsDistinct("Overdue by ", n1, n2,
                          if n1 == 1 then " day" else " days", if n2 == 1 then " day" else " days");
  }

  /** `formatProgress`: "<current> of <required>". */
  function FormatProgress(currentCount: int, requiredCount: int): (r: string)
    ensures currentCount >= 0 && requiredCount >= 0 ==>
              r == NatToString(currentCount) + (" of " + NatToString(requiredCount))
    ensures currentCount < 0 ==> |r| > 0 && r[0] == '-'
  {
    IntToString(currentCount) + " of " + IntToString(requiredCount)
  }

  /** The progress text determines both counts. */
  lemma FormatProgressInjective(c1: nat, r1: nat, c2: nat, r2: nat)
    requires FormatProgress(c1, r1) == FormatProgress(c2, r2)
    ensures c1 == c2 && r1 == r2
  {
    var x1, x2 := " of " + NatToString(r1), " of " + NatToString(r2);
    ProgressParts(c1, r1);
    ProgressParts(c2, r2);
    NumeralSplitUnique(NatToString(c1), x1, NatToString(c2), x2);
    assert x1[4..] == NatToString(r1) && x2[4..] == NatToString(r2);
    NatToStringRoundTrip(c1);
    NatToStringRoundTrip(c2);
    NatToStringRoundTrip(r1);
    NatToStringRoundTrip(r2);
  }

  lemma ProgressParts(c: nat, r: nat)
    ensures FormatProgress(c, r) == NatToString(c) + (" of " + NatToString(r))
    ensures |" of " + NatToString(r)| > 0 && !IsDigit((" of " + NatToString(r))[0])
  {
  }
}
