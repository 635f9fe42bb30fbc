/** The simulator's event processor (src/lib/eventProcessor.ts) and the
    reminder hook it calls (src/lib/reminderTrigger.ts).

    `ProcessEvent` is the imperative procedure: a loop over the journey's
    matching actions with an inner loop over the subsumed milestones. It is
    proved equal to `ProcessEventSpec`, a left fold of `ProcessMatched`, and
    the properties of event processing are lemmas about that fold. */
module EventProcessor {
  import opened Types
  import opened Seqs
  import DC = DeadlineCalculator

  /** Position of the first instance with the given id, or -1 (`findIndex`). */
  function IndexOfId(s: seq<ActionInstance>, id: string): (k: int)
    ensures -1 <= k < |s|
    ensures k >= 0 ==> s[k].Id() == id && forall j :: 0 <= j < k ==> s[j].Id() != id
    ensures k == -1 ==> forall j :: 0 <= j < |s| ==> s[j].Id() != id
  {
    if |s| == 0 then -1
    else if s[0].Id() == id then 0
    else
      var k := IndexOfId(s[1..], id);
      if k < 0 then -1 else k + 1
  }

  predicate HasId(s: seq<ActionInstance>, id: string) {
    exists i :: 0 <= i < |s| && s[i].Id() == id
  }

  /** The first instance with the given id (`find`). */
  function FindInstance(s: seq<ActionInstance>, id: string): (r: Option<ActionInstance>)
    ensures r.Some? <==> HasId(s, id)
    ensures r.Some? ==> r.value in s && r.value.Id() == id
  {
    var k := IndexOfId(s, id);
    if k >= 0 then Some(s[k]) else None
  }

  /** An event matches an action when both its event type and its product agree. */
  predicate Matches(a: Action, e: Event): (b: bool)
    ensures b <==> a.eventType == e.eventType && a.product == e.product
  {
    a.eventType == e.eventType && a.product == e.product
  }

  /** `markActionComplete`. The source spreads its first argument into the result:
      a plain action contributes no deadline, an instance its own one, so the
      deadline the spread carries is an explicit argument here. */
  function MarkActionComplete(action: Action, deadline: Option<Instant>, completedAt: Instant,
                              entryCompletedAt: Option<Instant>): (r: ActionInstance)
    ensures r.action == action && r.status == Done && r.completedAt == Some(completedAt)
    ensures r.deadline == deadline && r.entryActionCompletedAt == entryCompletedAt
    ensures action.completionMode == Counter ==> r.currentCount == OrElse(action.requiredCount, 0)
    ensures action.completionMode == Occurrence ==> r.currentCount == 0
  {
    ActionInstance(action, Done,
                   if action.completionMode == Counter then OrElse(action.requiredCount, 0) else 0,
                   deadline, Some(completedAt), entryCompletedAt)
  }

  /** A counter reached its target: `requiredCount` is truthy and not above the count. */
  predicate CounterReached(action: Action, count: int) {
    Truthy(action.requiredCount) && count >= action.requiredCount.value
  }

  /** `incrementCount`: one more occurrence; completion exactly when the target is reached,
      otherwise no completion time and the status the deadline classifier gives. */
  function IncrementCount(inst: ActionInstance, occurredAt: Instant): (r: ActionInstance)
    ensures r.action == inst.action && r.deadline == inst.deadline
    ensures r.entryActionCompletedAt == inst.entryActionCompletedAt
    ensures r.currentCount == inst.currentCount + 1
    ensures CounterReached(inst.action, r.currentCount) ==>
              r.status == Done && r.completedAt == Some(occurredAt)
    ensures !CounterReached(inst.action, r.currentCount) ==>
              r.completedAt == None &&
              r.status == DC.CalculateActionStatus(inst.(currentCount := r.currentCount), occurredAt)
  {
    var newCount := inst.currentCount + 1;
    var isComplete := CounterReached(inst.action, newCount);
    inst.(currentCount := newCount,
          completedAt := if isComplete then Some(occurredAt) else None,
          status := if isComplete then Done
                    else DC.CalculateActionStatus(inst.(currentCount := newCount), occurredAt))
  }

  /** The actions a counter at `currentCount` also satisfies. */
  predicate Subsumes(a: Action, eventType: string, currentCount: int) {
    a.eventType == eventType && a.completionMode == Counter && CounterReached(a, currentCount)
  }

  function Actions(s: seq<ActionInstance>): (r: seq<Action>)
    ensures |r| == |s| && forall i :: 0 <= i < |s| ==> r[i] == s[i].action
  {
    if |s| == 0 then [] else [s[0].action] + Actions(s[1..])
  }

  function MarkAll(s: seq<Action>, completedAt: Instant, entryCompletedAt: Option<Instant>): (r: seq<ActionInstance>)
    ensures |r| == |s|
    ensures forall i :: 0 <= i < |s| ==> r[i] == MarkActionComplete(s[i], None, completedAt, entryCompletedAt)
  {
    if |s| == 0 then [] else [MarkActionComplete(s[0], None, completedAt, entryCompletedAt)]
                             + MarkAll(s[1..], completedAt, entryCompletedAt)
  }

  /** `checkMilestoneSubsumption`: every action of the same event type in counter
      mode whose truthy target the count has reached, in journey order, marked
      complete at the wall-clock time `now`. */
  function CheckMilestoneSubsumption(eventType: string, currentCount: int, allActions: seq<Action>,
                                     entryCompletedAt: Option<Instant>, now: Instant): (r: seq<ActionInstance>)
    ensures Actions(r) == Filter(allActions, a => Subsumes(a, eventType, currentCount))
    ensures r == MarkAll(Actions(r), now, entryCompletedAt)
  {
    var p := (a: Action) => a.eventType == eventType && a.completionMode == Counter;
    var q := (a: Action) => CounterReached(a, currentCount);
    var reached := Filter(Filter(allActions, p), q);
    FilterFilter(allActions, p, q, a => Subsumes(a, eventType, currentCount));
    var r := MarkAll(reached, now, entryCompletedAt);
    assert Actions(r) == reached;
    r
  }

  /** `checkReminders`: a stub in the source that never produces a notification. */
  function CheckReminders(inst: ActionInstance, currentTime: Instant,
                          lastReminderTimes: map<string, Instant>): (r: seq<Notification>)
    ensures |r| == 0
  {
    []
  }

  /** Appends each subsumed instance whose id is not among the updates yet. */
  function AddSubsumed(acc: seq<ActionInstance>, sub: seq<ActionInstance>): (r: seq<ActionInstance>)
    ensures acc <= r
    ensures forall i :: |acc| <= i < |r| ==> r[i] in sub && !HasId(r[..i], r[i].Id())
    ensures forall x :: x in sub ==> HasId(r, x.Id())
    decreases |sub|
  {
    if |sub| == 0 then acc
    else
      var front := sub[..|sub| - 1];
      var x := sub[|sub| - 1];
      var r0 := AddSubsumed(acc, front);
      assert forall y :: y in front ==> y in sub;
      assert sub == front + [x];
      if HasId(r0, x.Id()) then r0
      else
        var r := r0 + [x];
        assert r[..|r0|] == r0;
        assert forall i :: 0 <= i < |r0| ==> r[..i] == r0[..i];
        assert forall id :: HasId(r0, id) ==> HasId(r, id);
        r
  }

  /** Everything one pass of the loop needs besides the accumulated updates. */
  datatype Context = Context(event: Event, journey: Journey, current: seq<ActionInstance>,
                             entry: Instant, wallClock: Instant)

  /** The existing instance of the action, or a fresh one anchored at the entry time. */
  function InstanceFor(action: Action, c: Context): (r: ActionInstance)
    ensures r.Id() == action.id
    ensures FindInstance(c.current, action.id).Some? ==> r == FindInstance(c.current, action.id).value
    ensures FindInstance(c.current, action.id).None? ==>
              r == ActionInstance(action, NotDone, 0, None, None, Some(c.entry))
  {
    match FindInstance(c.current, action.id)
    case Some(i) => i
    case None => ActionInstance(action, NotDone, 0, None, None, Some(c.entry))
  }

  /** One pass of the loop over the matching actions. */
  function ProcessMatched(acc: seq<ActionInstance>, action: Action, c: Context): (r: seq<ActionInstance>)
    ensures acc <= r
  {
    var inst := InstanceFor(action, c);
    if inst.completedAt.Some? then acc
    else if action.completionMode == Counter then
      var updated := IncrementCount(inst, c.event.occurredAt);
      AddSubsumed(acc + [updated],
                  CheckMilestoneSubsumption(action.eventType, updated.currentCount, c.journey.actions,
                                            Some(c.entry), c.wallClock))
    else acc + [MarkActionComplete(inst.action, inst.deadline, c.event.occurredAt, Some(c.entry))]
  }

  /** The updates after the loop has visited `matching`. */
  function ProcessAll(matching: seq<Action>, c: Context): (r: seq<ActionInstance>)
    ensures |matching| == 0 ==> r == []
    decreases |matching|
  {
    if |matching| == 0 then []
    else ProcessMatched(ProcessAll(matching[..|matching| - 1], c), matching[|matching| - 1], c)
  }

  function MatchingActions(journey: Journey, e: Event): seq<Action> {
    Filter(journey.actions, a => Matches(a, e))
  }

  datatype ProcessResult = ProcessResult(updatedActions: seq<ActionInstance>,
                                         newNotifications: seq<Notification>)

  /** What `processEvent` returns. Before the journey is anchored only its first
      action can be completed, and that marks the anchor; afterwards every matching
      action is processed in journey order. */
  function ProcessEventSpec(e: Event, journey: Journey, current: seq<ActionInstance>,
                            entryCompletedAt: Option<Instant>, wallClock: Instant): (r: ProcessResult)
    ensures r.newNotifications == []
    ensures entryCompletedAt.None? ==> |r.updatedActions| <= 1
    ensures entryCompletedAt.None? && |r.updatedActions| == 1 ==>
              |journey.actions| > 0 && Matches(journey.actions[0], e)
              && r.updatedActions[0].action == journey.actions[0] && r.updatedActions[0].status == Done
              && r.updatedActions[0].entryActionCompletedAt == Some(e.occurredAt)
    ensures (forall a :: a in journey.actions ==> !Matches(a, e)) ==> r.updatedActions == []
  {
    match entryCompletedAt
    case None =>
      if |journey.actions| > 0 && Matches(journey.actions[0], e) then
        assert journey.actions[0] in journey.actions;
        ProcessResult([MarkActionComplete(journey.actions[0], None, e.occurredAt, Some(e.occurredAt))], [])
      else ProcessResult([], [])
    case Some(entry) =>
      var matching := MatchingActions(journey, e);
      if |matching| == 0 then ProcessResult([], [])
      else
        assert matching[0] in matching;
        ProcessResult(ProcessAll(matching, Context(e, journey, current, entry, wallClock)), [])
  }

  /** `processEvent`. `wallClock` stands for the `new Date()` that stamps subsumed milestones. */
  method ProcessEvent(e: Event, journey: Journey, current: seq<ActionInstance>,
                      entryCompletedAt: Option<Instant>, currentTime: Instant,
                      lastReminderTimes: map<string, Instant>, wallClock: Instant)
    returns (result: ProcessResult)
    ensures result == ProcessEventSpec(e, journey, current, entryCompletedAt, wallClock)
    ensures result.newNotifications == []
    ensures entryCompletedAt.None? && |journey.actions| > 0 && Matches(journey.actions[0], e) ==>
              |result.updatedActions| == 1 && result.updatedActions[0].action == journey.actions[0]
              && result.updatedActions[0].status == Done
              && result.updatedActions[0].completedAt == Some(e.occurredAt)
              && result.updatedActions[0].entryActionCompletedAt == Some(e.occurredAt)
    ensures entryCompletedAt.None? && !(|journey.actions| > 0 && Matches(journey.actions[0], e)) ==>
              result.updatedActions == []
    ensures (forall a :: a in journey.actions ==> !Matches(a, e)) ==> result.updatedActions == []
  {
    if entryCompletedAt.None? {
      if |journey.actions| > 0 && Matches(journey.actions[0], e) {
        var completed := MarkActionComplete(journey.actions[0], None, e.occurredAt, Some(e.occurredAt));
        return ProcessResult([completed], []);
      }
      return ProcessResult([], []);
    }
    var entry := entryCompletedAt.value;
    var matching := MatchingActions(journey, e);
    if |matching| == 0 {
      return ProcessResult([], []);
    }
    assert matching[0] in matching;
    var updated, notifications := ProcessMatching(matching, e, journey, current, entry, currentTime,
                                                  lastReminderTimes, wallClock);
    return ProcessResult(updated, notifications);
  }

  /** The loop of `processEvent` over the matching actions, once the journey is anchored. */
  method ProcessMatching(matching: seq<Action>, e: Event, journey: Journey, current: seq<ActionInstance>,
                         entry: Instant, currentTime: Instant, lastReminderTimes: map<string, Instant>,
                         wallClock: Instant)
    returns (updated: seq<ActionInstance>, notifications: seq<Notification>)
    ensures updated == ProcessAll(matching, Context(e, journey, current, entry, wallClock))
    ensures notifications == []
  {
    ghost var c := Context(e, journey, current, entry, wallClock);
    updated := [];
    notifications := [];
    var i := 0;
    while i < |matching|
      invariant 0 <= i <= |matching|
      invariant updated == ProcessAll(matching[..i], c)
      invariant notifications == []
    {
      var action := matching[i];
      PassIsStep(matching, i, c);
      var inst;
      updated, inst := ProcessPass(updated, action, e, journey, current, entry, wallClock);
      var finalAction := match FindInstance(updated, action.id)
                         case Some(f) => f
                         case None => inst;
      notifications := notifications + CheckReminders(finalAction, currentTime, lastReminderTimes);
      i := i + 1;
    }
    assert matching[..i] == matching;
  }

  /** One pass of the loop of `processEvent` over the matching actions; also
      returns the instance the pass started from. */
  method ProcessPass(acc: seq<ActionInstance>, action: Action, e: Event, journey: Journey,
                     current: seq<ActionInstance>, entry: Instant, wallClock: Instant)
    returns (updated: seq<ActionInstance>, inst: ActionInstance)
    ensures updated == ProcessMatched(acc, action, Context(e, journey, current, entry, wallClock))
    ensures inst == InstanceFor(action, Context(e, journey, current, entry, wallClock))
  {
    var found := FindInstance(current, action.id);
    inst := if found.Some? then found.value
            else ActionInstance(action, NotDone, 0, None, None, Some(entry));
    if inst.completedAt.Some? {
      return acc, inst;
    }
    if action.completionMode == Counter {
      var upd := IncrementCount(inst, e.occurredAt);
      var subsumed := CheckMilestoneSubsumption(action.eventType, upd.currentCount, journey.actions,
                                                Some(entry), wallClock);
      updated := AppendNew(acc + [upd], subsumed);
    } else {
      updated := acc + [MarkActionComplete(inst.action, inst.deadline, e.occurredAt, Some(entry))];
    }
  }

  /** The inner loop of `processEvent`: appends each subsumed instance whose id
      is not among the updates yet. */
  method AppendNew(updated: seq<ActionInstance>, subsumed: seq<ActionInstance>)
    returns (r: seq<ActionInstance>)
    ensures r == AddSubsumed(updated, subsumed)
  {
    r := updated;
    var k := 0;
    while k < |subsumed|
      invariant 0 <= k <= |subsumed|
      invariant r == AddSubsumed(updated, subsumed[..k])
    {
      assert subsumed[..k + 1][..k] == subsumed[..k];
      if !HasId(r, subsumed[k].Id()) {
        r := r + [subsumed[k]];
      }
      k := k + 1;
    }
    assert subsumed[..k] == subsumed;
  }

  /** One more pass of the loop is one more step of the fold. */
  lemma PassIsStep(matching: seq<Action>, i: nat, c: Context)
    requires i < |matching|
    ensures ProcessAll(matching[..i + 1], c) == ProcessMatched(ProcessAll(matching[..i], c), matching[i], c)
  {
    assert matching[..i + 1][..i] == matching[..i];
  }

  // ---- Properties of event processing ----

  /** An instance that is already complete is skipped: its pass adds nothing. */
  lemma CompletedInstanceSkipped(acc: seq<ActionInstance>, action: Action, c: Context)
    requires InstanceFor(action, c).completedAt.Some?
    ensures ProcessMatched(acc, action, c) == acc
  {
  }

  /** An occurrence action that is not complete yet is completed at the event's time,
      keeping its deadline and taking the journey's anchor. Its count is 0; the
      count follows the instance's own copy of the action, so only an instance
      stored with a counter copy would take that copy's target instead. */
  lemma OccurrencePass(acc: seq<ActionInstance>, action: Action, c: Context)
    requires InstanceFor(action, c).completedAt.None? && action.completionMode == Occurrence
    ensures var r := ProcessMatched(acc, action, c);
            var inst := InstanceFor(action, c);
            |r| == |acc| + 1 && r[..|acc|] == acc && r[|acc|].Id() == action.id
            && r[|acc|].status == Done && r[|acc|].completedAt == Some(c.event.occurredAt)
            && r[|acc|].currentCount
                 == (if inst.action.completionMode == Counter then OrElse(inst.action.requiredCount, 0) else 0)
            && (inst.action.completionMode == Occurrence ==> r[|acc|].currentCount == 0)
            && r[|acc|].deadline == inst.deadline
            && r[|acc|].entryActionCompletedAt == Some(c.entry)
  {
    var r := ProcessMatched(acc, action, c);
    assert r[..|acc|] == acc;
  }

  /** A counter action that is not complete yet is counted once, and every journey
      action the new count subsumes then has an update, added only if none was there. */
  lemma CounterPass(acc: seq<ActionInstance>, action: Action, c: Context)
    requires InstanceFor(action, c).completedAt.None? && action.completionMode == Counter
    ensures var r := ProcessMatched(acc, action, c);
            var inst := InstanceFor(action, c);
            |r| > |acc| && r[..|acc|] == acc && r[|acc|] == IncrementCount(inst, c.event.occurredAt)
            && r[|acc|].currentCount == inst.currentCount + 1
            && (forall a :: a in c.journey.actions && Subsumes(a, action.eventType, r[|acc|].currentCount)
                  ==> HasId(r, a.id))
            && (forall i :: |acc| < i < |r| ==> !HasId(r[..i], r[i].Id()) && r[i].completedAt == Some(c.wallClock))
  {
    var inst := InstanceFor(action, c);
    var updated := IncrementCount(inst, c.event.occurredAt);
    var sub := CheckMilestoneSubsumption(action.eventType, updated.currentCount, c.journey.actions,
                                         Some(c.entry), c.wallClock);
    SubsumptionCovers(action.eventType, updated.currentCount, c.journey.actions, Some(c.entry), c.wallClock);
    var base := acc + [updated];
    var r := AddSubsumed(base, sub);
    assert r[..|base|] == base;
    assert r[..|acc|] == base[..|acc|];
  }

  /** Every journey action a count subsumes, and only those, is among the subsumed milestones. */
  lemma SubsumptionCovers(eventType: string, currentCount: int, allActions: seq<Action>,
                          entryCompletedAt: Option<Instant>, now: Instant)
    ensures var r := CheckMilestoneSubsumption(eventType, currentCount, allActions, entryCompletedAt, now);
            (forall a :: a in allActions && Subsumes(a, eventType, currentCount) ==> HasId(r, a.id))
            && (forall x :: x in r ==> x.action in allActions && Subsumes(x.action, eventType, currentCount))
            && (forall x :: x in r ==> x.status == Done && x.completedAt == Some(now) && x.deadline == None
                                       && x.currentCount == x.action.requiredCount.value
                                       && x.entryActionCompletedAt == entryCompletedAt)
  {
    var r := CheckMilestoneSubsumption(eventType, currentCount, allActions, entryCompletedAt, now);
    var p := a => Subsumes(a, eventType, currentCount);
    assert Actions(r) == Filter(allActions, p);
    forall a | a in allActions && Subsumes(a, eventType, currentCount)
      ensures HasId(r, a.id)
    {
      assert p(a);
      assert a in Actions(r);
      var j :| 0 <= j < |r| && Actions(r)[j] == a;
      assert r[j].Id() == a.id;
    }
    forall x | x in r
      ensures x.action in allActions && Subsumes(x.action, eventType, currentCount)
      ensures x.status == Done && x.completedAt == Some(now) && x.deadline == None
              && x.currentCount == x.action.requiredCount.value
              && x.entryActionCompletedAt == entryCompletedAt
    {
      var j :| 0 <= j < |r| && r[j] == x;
      assert Actions(r)[j] == x.action;
      assert x.action in Filter(allActions, p);
      assert x == MarkActionComplete(x.action, None, now, entryCompletedAt);
    }
  }

  /** The journey action an update belongs to: same id, same event type as the event. */
  ghost predicate FromJourney(x: ActionInstance, journey: Journey, e: Event) {
    exists a :: a in journey.actions && a.id == x.Id() && a.eventType == e.eventType
  }

  lemma PassFromJourney(acc: seq<ActionInstance>, action: Action, c: Context)
    requires forall x :: x in acc ==> FromJourney(x, c.journey, c.event)
    requires action in c.journey.actions && Matches(action, c.event)
    ensures forall x :: x in ProcessMatched(acc, action, c) ==> FromJourney(x, c.journey, c.event)
  {
    var inst := InstanceFor(action, c);
    if inst.completedAt.None? {
      if action.completionMode == Counter {
        CounterPassFromJourney(acc, action, c);
      } else {
        var m := MarkActionComplete(inst.action, inst.deadline, c.event.occurredAt, Some(c.entry));
        assert m.Id() == action.id;
        assert FromJourney(m, c.journey, c.event);
        assert ProcessMatched(acc, action, c) == acc + [m];
      }
    }
  }

  lemma CounterPassFromJourney(acc: seq<ActionInstance>, action: Action, c: Context)
    requires forall x :: x in acc ==> FromJourney(x, c.journey, c.event)
    requires action in c.journey.actions && Matches(action, c.event)
    requires InstanceFor(action, c).completedAt.None? && action.completionMode == Counter
    ensures forall x :: x in ProcessMatched(acc, action, c) ==> FromJourney(x, c.journey, c.event)
  {
    var inst := InstanceFor(action, c);
    var updated := IncrementCount(inst, c.event.occurredAt);
    var sub := CheckMilestoneSubsumption(action.eventType, updated.currentCount, c.journey.actions,
                                         Some(c.entry), c.wallClock);
    SubsumptionCovers(action.eventType, updated.currentCount, c.journey.actions,
                      Some(c.entry), c.wallClock);
    assert updated.Id() == action.id;
    assert FromJourney(updated, c.journey, c.event);
    var base := acc + [updated];
    assert forall x :: x in base ==> FromJourney(x, c.journey, c.event);
    forall x | x in sub ensures FromJourney(x, c.journey, c.event)
    {
      assert x.action in c.journey.actions && x.action.eventType == c.event.eventType;
    }
    var r := AddSubsumed(base, sub);
    assert r == ProcessMatched(acc, action, c);
    forall x | x in r ensures FromJourney(x, c.journey, c.event)
    {
      var i :| 0 <= i < |r| && r[i] == x;
      if i < |base| {
        assert r[i] == base[i];
      }
    }
  }

  lemma {:induction false} ProcessAllFromJourney(matching: seq<Action>, c: Context)
    requires forall a :: a in matching ==> a in c.journey.actions && Matches(a, c.event)
    ensures forall x :: x in ProcessAll(matching, c) ==> FromJourney(x, c.journey, c.event)
    decreases |matching|
  {
    if |matching| > 0 {
      var front := matching[..|matching| - 1];
      assert forall a :: a in front ==> a in matching;
      ProcessAllFromJourney(front, c);
      PassFromJourney(ProcessAll(front, c), matching[|matching| - 1], c);
    }
  }

  /** Every update belongs to an action of the journey with the event's type. */
  lemma UpdatesBelongToJourney(e: Event, journey: Journey, current: seq<ActionInstance>,
                               entry: Option<Instant>, wallClock: Instant)
    ensures forall x :: x in ProcessEventSpec(e, journey, current, entry, wallClock).updatedActions
                        ==> FromJourney(x, journey, e)
  {
    if entry.Some? {
      var c := Context(e, journey, current, entry.value, wallClock);
      ProcessAllFromJourney(MatchingActions(journey, e), c);
    } else if |journey.actions| > 0 && Matches(journey.actions[0], e) {
      assert journey.actions[0] in journey.actions;
    }
  }

  /** The loop only ever appends: earlier passes' updates stay where they are. */
  lemma {:induction false} ProcessAllPrefix(matching: seq<Action>, n: nat, c: Context)
    requires n <= |matching|
    ensures ProcessAll(matching[..n], c) <= ProcessAll(matching, c)
    decreases |matching|
  {
    if n < |matching| {
      var front := matching[..|matching| - 1];
      assert front[..n] == matching[..n];
      ProcessAllPrefix(front, n, c);
      var acc := ProcessAll(front, c);
      var action := matching[|matching| - 1];
      var inst := InstanceFor(action, c);
      if inst.completedAt.None? && action.completionMode == Counter {
        var updated := IncrementCount(inst, c.event.occurredAt);
        assert acc <= acc + [updated];
      }
    } else {
      assert matching[..n] == matching;
    }
  }

  /** A pass over an action whose instance is open puts an update for it right after `acc`. */
  lemma OpenPassUpdates(acc: seq<ActionInstance>, action: Action, c: Context)
    requires InstanceFor(action, c).completedAt.None?
    ensures var r := ProcessMatched(acc, action, c);
            |r| > |acc| && r[..|acc|] == acc && r[|acc|].Id() == action.id
  {
    if action.completionMode == Counter {
      CounterPass(acc, action, c);
    } else {
      OccurrencePass(acc, action, c);
    }
  }

  /** The update a pass makes stays in the final result. */
  lemma {:induction false} ProcessAllKeeps(matching: seq<Action>, j: nat, c: Context)
    requires j < |matching| && InstanceFor(matching[j], c).completedAt.None?
    ensures HasId(ProcessAll(matching, c), matching[j].id)
  {
    PassIsStep(matching, j, c);
    var acc := ProcessAll(matching[..j], c);
    OpenPassUpdates(acc, matching[j], c);
    var r := ProcessAll(matching[..j + 1], c);
    ProcessAllPrefix(matching, j + 1, c);
    var all := ProcessAll(matching, c);
    assert all[|acc|] == r[|acc|];
  }

  /** Once anchored, every matching action whose instance is not complete yet has an update. */
  lemma EveryOpenMatchUpdated(e: Event, journey: Journey, current: seq<ActionInstance>,
                              entry: Instant, wallClock: Instant, a: Action)
    requires a in journey.actions && Matches(a, e)
    requires InstanceFor(a, Context(e, journey, current, entry, wallClock)).completedAt.None?
    ensures HasId(ProcessEventSpec(e, journey, current, Some(entry), wallClock).updatedActions, a.id)
  {
    var matching := MatchingActions(journey, e);
    assert a in matching;
    var j :| 0 <= j < |matching| && matching[j] == a;
    ProcessAllKeeps(matching, j, Context(e, journey, current, entry, wallClock));
  }
}
