/** The member-journey simulator (src/contexts/SimulatorContext.tsx): the state
    one simulation session keeps and the operations and effects that change it.

    React state becomes the fields of `SimulatorSession`; each callback and each
    effect becomes a method that updates them. The journey is the one the
    journey store currently selects; `SelectJourney` stands for that input.
    Effects run when their method is called: React's scheduling, batching and
    closure capture are not modelled. `new Date()` becomes a `now` parameter and
    `uuidv4()` an `eventId` parameter. */
module Simulator {
  import opened Types
  import CU = ChecklistUtils
  import DC = DeadlineCalculator
  import EP = EventProcessor
  import Seqs

  /** The instances' action ids, in order. */
  function Ids(s: seq<ActionInstance>): (r: seq<string>)
    ensures |r| == |s| && forall i :: 0 <= i < |s| ==> r[i] == s[i].Id()
  {
    Seqs.Map(s, (x: ActionInstance) => x.Id())
  }

  predicate UniqueIds(s: seq<ActionInstance>) {
    forall i, j :: 0 <= i < j < |s| ==> s[i].Id() != s[j].Id()
  }

  predicate UniqueActionIds(actions: seq<Action>) {
    forall i, j :: 0 <= i < j < |actions| ==> actions[i].id != actions[j].id
  }

  // ---- The instance list ----

  /** The deadline the effects compute: none for a `NONE` range, otherwise the
      range applied to `base` with no previous completion. */
  function EffectDeadline(action: Action, base: Instant): (r: Option<Instant>)
    ensures action.timeRange.kind == NoDeadline ==> r == None
    ensures action.timeRange.kind != NoDeadline ==> r == DC.CalculateDeadline(action, base, None)
  {
    if action.timeRange.kind != NoDeadline then DC.CalculateDeadline(action, base, None) else None
  }

  /** A fresh instance of an action: not done, no count, no completion. */
  function InitialInstance(action: Action, base: Instant, entry: Option<Instant>): ActionInstance {
    ActionInstance(action, NotDone, 0, EffectDeadline(action, base), None, entry)
  }

  function InitialInstances(actions: seq<Action>, base: Instant, entry: Option<Instant>): (r: seq<ActionInstance>)
    ensures |r| == |actions|
    ensures forall i :: 0 <= i < |actions| ==> r[i] == InitialInstance(actions[i], base, entry)
  {
    if |actions| == 0 then []
    else [InitialInstance(actions[0], base, entry)] + InitialInstances(actions[1..], base, entry)
  }

  /** The anchor effect's update of one instance. */
  function Reanchor(inst: ActionInstance, entry: Instant): (r: ActionInstance)
    ensures r.action == inst.action && r.status == inst.status && r.currentCount == inst.currentCount
    ensures r.completedAt == inst.completedAt
    ensures r.deadline == DC.CalculateDeadline(inst.action, entry, None) && r.entryActionCompletedAt == Some(entry)
  {
    inst.(deadline := DC.CalculateDeadline(inst.action, entry, None), entryActionCompletedAt := Some(entry))
  }

  function ReanchorAll(s: seq<ActionInstance>, entry: Instant): (r: seq<ActionInstance>)
    ensures |r| == |s|
    ensures forall i :: 0 <= i < |s| ==> r[i] == Reanchor(s[i], entry)
  {
    if |s| == 0 then [] else [Reanchor(s[0], entry)] + ReanchorAll(s[1..], entry)
  }

  /** The time effect's update of one instance: deadline from `base`, status at `t`. */
  function Refresh(inst: ActionInstance, base: Instant, t: Instant): (r: ActionInstance)
    ensures r.action == inst.action && r.currentCount == inst.currentCount && r.completedAt == inst.completedAt
    ensures r.entryActionCompletedAt == inst.entryActionCompletedAt && r.deadline == EffectDeadline(inst.action, base)
    ensures r.status == DC.CalculateActionStatus(r, t)
    ensures inst.completedAt.Some? ==> r.status == Done
  {
    var d := EffectDeadline(inst.action, base);
    inst.(deadline := d, status := DC.CalculateActionStatus(inst.(deadline := d), t))
  }

  function RefreshAll(s: seq<ActionInstance>, base: Instant, t: Instant): (r: seq<ActionInstance>)
    ensures |r| == |s|
    ensures forall i :: 0 <= i < |s| ==> r[i] == Refresh(s[i], base, t)
  {
    if |s| == 0 then [] else [Refresh(s[0], base, t)] + RefreshAll(s[1..], base, t)
  }

  /** Replaces the first instance with the update's id, or appends the update. */
  function Upsert(s: seq<ActionInstance>, x: ActionInstance): (r: seq<ActionInstance>)
    ensures EP.HasId(s, x.Id()) ==> |r| == |s|
    ensures EP.HasId(s, x.Id()) ==>
              var k := EP.IndexOfId(s, x.Id());
              0 <= k && r[k] == x && forall i :: 0 <= i < |s| && i != k ==> r[i] == s[i]
    ensures !EP.HasId(s, x.Id()) ==> r == s + [x]
  {
    var k := EP.IndexOfId(s, x.Id());
    if k >= 0 then s[k := x] else s + [x]
  }

  /** The updates applied in order. */
  function UpsertAll(s: seq<ActionInstance>, xs: seq<ActionInstance>): (r: seq<ActionInstance>)
    ensures |s| <= |r| <= |s| + |xs|
    ensures UniqueIds(s) ==> UniqueIds(r)
    decreases |xs|
  {
    if |xs| == 0 then s
    else
      var prev := UpsertAll(s, xs[..|xs| - 1]);
      UpsertKeepsUnique(prev, xs[|xs| - 1]);
      Upsert(prev, xs[|xs| - 1])
  }

  /** The last update with the given id. */
  function LastWithId(xs: seq<ActionInstance>, id: string): Option<ActionInstance>
    decreases |xs|
  {
    if |xs| == 0 then None
    else if xs[|xs| - 1].Id() == id then Some(xs[|xs| - 1])
    else LastWithId(xs[..|xs| - 1], id)
  }

  /** The state update `triggerEvent` applies to the instances: each update
      replaces the instance with its id, or is appended when there is none. */
  method MergeUpdates(prev: seq<ActionInstance>, ups: seq<ActionInstance>) returns (updated: seq<ActionInstance>)
    ensures updated == UpsertAll(prev, ups)
    ensures UniqueIds(prev) ==> UniqueIds(updated)
  {
    updated := prev;
    var k := 0;
    while k < |ups|
      invariant 0 <= k <= |ups|
      invariant updated == UpsertAll(prev, ups[..k])
      invariant UniqueIds(prev) ==> UniqueIds(updated)
    {
      assert ups[..k + 1][..k] == ups[..k];
      UpsertKeepsUnique(updated, ups[k]);
      var index := EP.IndexOfId(updated, ups[k].Id());
      if index >= 0 {
        updated := updated[index := ups[k]];
      } else {
        updated := updated + [ups[k]];
      }
      k := k + 1;
    }
    assert ups[..k] == ups;
  }

  /** Runs the event processor on one event and merges its updates into the instances. */
  method ApplyEvent(e: Event, journey: Journey, current: seq<ActionInstance>,
                    entryCompletedAt: Option<Instant>, currentTime: Instant,
                    lastReminderTimes: map<string, Instant>, wallClock: Instant)
    returns (updated: seq<ActionInstance>, newNotifications: seq<Notification>)
    ensures updated == UpsertAll(current, EP.ProcessEventSpec(e, journey, current, entryCompletedAt,
                                                              wallClock).updatedActions)
    ensures UniqueIds(current) ==> UniqueIds(updated)
    ensures newNotifications == []
  {
    var result := EP.ProcessEvent(e, journey, current, entryCompletedAt, currentTime,
                                  lastReminderTimes, wallClock);
    updated := MergeUpdates(current, result.updatedActions);
    newNotifications := result.newNotifications;
  }

  /** The journey's anchor after an event: set to the event's time when there is none yet
      and the event completes the entry action. */
  method AnchorAfter(anchor: Option<Instant>, journey: Journey, e: Event) returns (r: Option<Instant>)
    ensures r == if anchor.None? && |journey.actions| > 0 && EP.Matches(journey.actions[0], e)
                 then Some(e.occurredAt) else anchor
  {
    r := anchor;
    if anchor.None? && |journey.actions| > 0 {
      var entryAction := journey.actions[0];
      if entryAction.eventType == e.eventType && entryAction.product == e.product {
        r := Some(e.occurredAt);
      }
    }
  }

  // ---- Notifications ----

  function MarkRead(ns: seq<Notification>, id: string): (r: seq<Notification>)
    ensures |r| == |ns|
    ensures forall i :: 0 <= i < |ns| ==>
              if ns[i].id == id then r[i] == ns[i].(read := true) else r[i] == ns[i]
  {
    if |ns| == 0 then [] else [if ns[0].id == id then ns[0].(read := true) else ns[0]] + MarkRead(ns[1..], id)
  }

  // ---- The session ----

  class SimulatorSession {
    var currentJourney: Option<Journey>
    var simulatedTime: Instant
    var events: seq<Event>
    var actionInstances: seq<ActionInstance>
    var notifications: seq<Notification>
    var entryActionCompletedAt: Option<Instant>
    var lastReminderTimes: map<string, Instant>

    /** No two instances share an action id. */
    predicate Valid()
      reads this
    {
      UniqueIds(actionInstances)
    }

    /** The deadline base the effects use: the journey's anchor, otherwise the simulated time. */
    function DeadlineBase(): Instant
      reads this
    {
      GetOr(entryActionCompletedAt, simulatedTime)
    }

    constructor(now: Instant)
      ensures currentJourney == None && simulatedTime == now
      ensures events == [] && actionInstances == [] && notifications == []
      ensures entryActionCompletedAt == None && lastReminderTimes == map[]
      ensures Valid()
    {
      currentJourney := None;
      simulatedTime := now;
      events := [];
      actionInstances := [];
      notifications := [];
      entryActionCompletedAt := None;
      lastReminderTimes := map[];
    }

    /** The journey store selects another journey (or none). */
    method SelectJourney(j: Option<Journey>)
      modifies this
      ensures currentJourney == j
      ensures simulatedTime == old(simulatedTime) && events == old(events)
      ensures actionInstances == old(actionInstances) && notifications == old(notifications)
      ensures entryActionCompletedAt == old(entryActionCompletedAt)
      ensures lastReminderTimes == old(lastReminderTimes)
    {
      currentJourney := j;
    }

    /** The effect that runs when the journey or the anchor changes: without a
        journey everything is cleared; otherwise one fresh instance per action. */
    method InitEffect()
      modifies this
      ensures currentJourney == old(currentJourney) && simulatedTime == old(simulatedTime)
      ensures old(currentJourney).None? ==>
                actionInstances == [] && entryActionCompletedAt == None && events == []
                && notifications == [] && lastReminderTimes == map[]
      ensures old(currentJourney).Some? ==>
                actionInstances == InitialInstances(old(currentJourney).value.actions,
                                                    old(DeadlineBase()), old(entryActionCompletedAt))
                && entryActionCompletedAt == old(entryActionCompletedAt) && events == old(events)
                && notifications == old(notifications) && lastReminderTimes == old(lastReminderTimes)
      ensures currentJourney.Some? && UniqueActionIds(currentJourney.value.actions) ==> Valid()
    {
      if currentJourney.None? {
        actionInstances := [];
        entryActionCompletedAt := None;
        events := [];
        notifications := [];
        lastReminderTimes := map[];
        return;
      }
      var actions := currentJourney.value.actions;
      var base := DeadlineBase();
      actionInstances := InitialInstances(actions, base, entryActionCompletedAt);
      InitialInstancesUnique(actions, base, entryActionCompletedAt);
    }

    /** The effect that re-derives deadlines from a newly set anchor. */
    method AnchorEffect()
      modifies this
      ensures currentJourney == old(currentJourney) && simulatedTime == old(simulatedTime)
      ensures events == old(events) && notifications == old(notifications)
      ensures entryActionCompletedAt == old(entryActionCompletedAt)
      ensures lastReminderTimes == old(lastReminderTimes)
      ensures (currentJourney.Some? && entryActionCompletedAt.Some?) ==>
                actionInstances == ReanchorAll(old(actionInstances), entryActionCompletedAt.value)
      ensures !(currentJourney.Some? && entryActionCompletedAt.Some?) ==>
                actionInstances == old(actionInstances)
      ensures old(Valid()) ==> Valid()
    {
      if currentJourney.None? || entryActionCompletedAt.None? {
        return;
      }
      var entry := entryActionCompletedAt.value;
      ReanchorKeepsIds(actionInstances, entry);
      actionInstances := ReanchorAll(actionInstances, entry);
    }

    /** The effect that runs when the simulated time changes: every instance's
        deadline and status recomputed, and the reminder check, which yields
        nothing. */
    method TimeEffect()
      modifies this
      ensures currentJourney == old(currentJourney) && simulatedTime == old(simulatedTime)
      ensures events == old(events) && notifications == old(notifications)
      ensures entryActionCompletedAt == old(entryActionCompletedAt)
      ensures lastReminderTimes == old(lastReminderTimes)
      ensures (currentJourney.Some? && |old(actionInstances)| > 0) ==>
                actionInstances == RefreshAll(old(actionInstances), DeadlineBase(), simulatedTime)
      ensures !(currentJourney.Some? && |old(actionInstances)| > 0) ==>
                actionInstances == old(actionInstances)
      ensures old(Valid()) ==> Valid()
    {
      if currentJourney.None? || |actionInstances| == 0 {
        return;
      }
      RefreshKeepsIds(actionInstances, DeadlineBase(), simulatedTime);
      var updated := RefreshAll(actionInstances, DeadlineBase(), simulatedTime);
      actionInstances := updated;
      var newNotifications: seq<Notification> := [];
      for i := 0 to |updated|
        invariant newNotifications == []
      {
        newNotifications := newNotifications
                            + EP.CheckReminders(updated[i], simulatedTime, lastReminderTimes);
      }
      notifications := newNotifications + notifications;
    }

    method SetSimulatedTime(t: Instant)
      modifies this
      ensures simulatedTime == t
      ensures currentJourney == old(currentJourney) && events == old(events)
      ensures actionInstances == old(actionInstances) && notifications == old(notifications)
      ensures entryActionCompletedAt == old(entryActionCompletedAt)
      ensures lastReminderTimes == old(lastReminderTimes)
    {
      simulatedTime := t;
    }

    /** Moves the simulated clock by whole calendar days (negative days move it back). */
    method FastForwardDays(days: int)
      modifies this
      ensures simulatedTime == AddDays(old(simulatedTime), days)
      ensures currentJourney == old(currentJourney) && events == old(events)
      ensures actionInstances == old(actionInstances) && notifications == old(notifications)
      ensures entryActionCompletedAt == old(entryActionCompletedAt)
      ensures lastReminderTimes == old(lastReminderTimes)
    {
      simulatedTime := AddDays(simulatedTime, days);
    }

    method ResetToNow(now: Instant)
      modifies this
      ensures simulatedTime == now
      ensures currentJourney == old(currentJourney) && events == old(events)
      ensures actionInstances == old(actionInstances) && notifications == old(notifications)
      ensures entryActionCompletedAt == old(entryActionCompletedAt)
      ensures lastReminderTimes == old(lastReminderTimes)
    {
      simulatedTime := now;
    }

    /** A member event at the simulated time: processed against the journey,
        its updates merged into the instances, the event recorded newest first,
        and the anchor set when it completes the entry action. */
    method TriggerEvent(eventType: string, product: Product, eventId: string, wallClock: Instant)
      modifies this
      ensures currentJourney == old(currentJourney) && simulatedTime == old(simulatedTime)
      ensures lastReminderTimes == old(lastReminderTimes) && notifications == old(notifications)
      ensures old(currentJourney).None? ==>
                events == old(events) && actionInstances == old(actionInstances)
                && entryActionCompletedAt == old(entryActionCompletedAt)
      ensures old(currentJourney).Some? ==>
                events == [Event(eventId, eventType, product, old(simulatedTime))] + old(events)
      ensures old(currentJourney).Some? ==>
                var e := Event(eventId, eventType, product, old(simulatedTime));
                actionInstances == UpsertAll(old(actionInstances),
                  EP.ProcessEventSpec(e, old(currentJourney).value, old(actionInstances),
                                      old(entryActionCompletedAt), wallClock).updatedActions)
      ensures old(currentJourney).Some? ==>
                var j := old(currentJourney).value;
                var e := Event(eventId, eventType, product, old(simulatedTime));
                entryActionCompletedAt ==
                  (if old(entryActionCompletedAt).None? && |j.actions| > 0 && EP.Matches(j.actions[0], e)
                   then Some(old(simulatedTime)) else old(entryActionCompletedAt))
      ensures old(Valid()) ==> Valid()
    {
      if currentJourney.None? {
        return;
      }
      var journey := currentJourney.value;
      var e := Event(eventId, eventType, product, simulatedTime);
      var updated, newNotifications := ApplyEvent(e, journey, actionInstances, entryActionCompletedAt,
                                                  simulatedTime, lastReminderTimes, wallClock);
      var anchor := AnchorAfter(entryActionCompletedAt, journey, e);
      actionInstances, notifications, events, entryActionCompletedAt :=
        updated, newNotifications + notifications, [e] + events, anchor;
    }

    method SetEntryActionCompletedAt(date: Option<Instant>)
      modifies this
      ensures entryActionCompletedAt == date
      ensures currentJourney == old(currentJourney) && simulatedTime == old(simulatedTime)
      ensures events == old(events) && actionInstances == old(actionInstances)
      ensures notifications == old(notifications) && lastReminderTimes == old(lastReminderTimes)
    {
      entryActionCompletedAt := date;
    }

    method MarkNotificationRead(notificationId: string)
      modifies this
      ensures notifications == MarkRead(old(notifications), notificationId)
      ensures currentJourney == old(currentJourney) && simulatedTime == old(simulatedTime)
      ensures events == old(events) && actionInstances == old(actionInstances)
      ensures entryActionCompletedAt == old(entryActionCompletedAt)
      ensures lastReminderTimes == old(lastReminderTimes)
    {
      notifications := MarkRead(notifications, notificationId);
    }

    /** Starts the simulation over at `now`: no events, notifications, anchor or
        reminder history, and fresh instances whose deadlines count from `now`. */
    method ResetSimulation(now: Instant)
      modifies this
      ensures currentJourney == old(currentJourney)
      ensures old(currentJourney).None? ==>
                simulatedTime == old(simulatedTime) && events == old(events)
                && actionInstances == old(actionInstances) && notifications == old(notifications)
                && entryActionCompletedAt == old(entryActionCompletedAt)
                && lastReminderTimes == old(lastReminderTimes)
      ensures old(currentJourney).Some? ==>
                simulatedTime == now && events == [] && notifications == []
                && entryActionCompletedAt == None && lastReminderTimes == map[]
                && actionInstances == InitialInstances(old(currentJourney).value.actions, now, None)
      ensures currentJourney.Some? && UniqueActionIds(currentJourney.value.actions) ==> Valid()
      ensures old(Valid()) && currentJourney.None? ==> Valid()
    {
      if currentJourney.None? {
        return;
      }
      simulatedTime := now;
      events := [];
      notifications := [];
      entryActionCompletedAt := None;
      lastReminderTimes := map[];
      var actions := currentJourney.value.actions;
      actionInstances := InitialInstances(actions, now, None);
      InitialInstancesUnique(actions, now, None);
    }
  }

  // ---- Properties ----

  /** Fresh instances have distinct ids when the journey's actions do, and every
      one of them starts not done, uncounted and incomplete. */
  lemma InitialInstancesUnique(actions: seq<Action>, base: Instant, entry: Option<Instant>)
    ensures var r := InitialInstances(actions, base, entry);
            (UniqueActionIds(actions) ==> UniqueIds(r))
            && forall i :: 0 <= i < |r| ==>
                 r[i].action == actions[i] && r[i].status == NotDone && r[i].currentCount == 0
                 && r[i].completedAt == None && r[i].entryActionCompletedAt == entry
  {
  }

  lemma ReanchorKeepsIds(s: seq<ActionInstance>, entry: Instant)
    ensures Ids(ReanchorAll(s, entry)) == Ids(s)
    ensures forall i :: 0 <= i < |s| ==> ReanchorAll(s, entry)[i].entryActionCompletedAt == Some(entry)
  {
    assert Ids(ReanchorAll(s, entry)) == Ids(s);
  }

  lemma RefreshKeepsIds(s: seq<ActionInstance>, base: Instant, t: Instant)
    ensures Ids(RefreshAll(s, base, t)) == Ids(s)
  {
    assert Ids(RefreshAll(s, base, t)) == Ids(s);
  }

  /** Refreshing twice at the same time is refreshing once. */
  lemma RefreshIdempotent(s: seq<ActionInstance>, base: Instant, t: Instant)
    ensures RefreshAll(RefreshAll(s, base, t), base, t) == RefreshAll(s, base, t)
  {
    var r := RefreshAll(s, base, t);
    assert forall i :: 0 <= i < |s| ==> Refresh(r[i], base, t) == r[i];
  }

  /** After a refresh, every status is the classifier's verdict for the instance's
      own deadline at that time; completed instances stay done. */
  lemma RefreshedStatuses(s: seq<ActionInstance>, base: Instant, t: Instant)
    ensures forall i :: 0 <= i < |s| ==>
              var r := RefreshAll(s, base, t)[i];
              r.status == DC.CalculateActionStatus(r, t)
              && (s[i].completedAt.Some? ==> r.status == Done)
  {
  }

  /** The first position holding an id is what `IndexOfId` returns. */
  lemma IndexOfIdAt(s: seq<ActionInstance>, id: string, k: int)
    requires 0 <= k < |s| && s[k].Id() == id
    requires forall j :: 0 <= j < k ==> s[j].Id() != id
    ensures EP.IndexOfId(s, id) == k
  {
  }

  /** After an upsert the update is what a lookup of its id finds. */
  lemma UpsertFinds(s: seq<ActionInstance>, x: ActionInstance)
    ensures EP.FindInstance(Upsert(s, x), x.Id()) == Some(x)
  {
    var k := EP.IndexOfId(s, x.Id());
    var r := Upsert(s, x);
    if k < 0 {
      assert r[|s|] == x;
      assert EP.IndexOfId(r, x.Id()) == |s|;
    } else {
      assert r[k].Id() == x.Id();
      IndexOfIdAt(r, x.Id(), k);
    }
  }

  /** An upsert changes no lookup of another id. */
  lemma UpsertOthers(s: seq<ActionInstance>, x: ActionInstance, id: string)
    requires id != x.Id()
    ensures EP.FindInstance(Upsert(s, x), id) == EP.FindInstance(s, id)
  {
    var k := EP.IndexOfId(s, x.Id());
    var r := Upsert(s, x);
    var m := EP.IndexOfId(s, id);
    if m >= 0 {
      assert r[m].Id() == id;
      IndexOfIdAt(r, id, m);
    } else {
      assert EP.IndexOfId(r, id) == -1;
    }
  }

  /** An upsert keeps the ids distinct. */
  lemma UpsertKeepsUnique(s: seq<ActionInstance>, x: ActionInstance)
    ensures UniqueIds(s) ==> UniqueIds(Upsert(s, x))
  {
  }

  /** Merging a batch of updates: for every id, the last update with that id
      wins; ids no update mentions keep what they had. */
  lemma {:induction false} UpsertAllLastWins(s: seq<ActionInstance>, xs: seq<ActionInstance>, id: string)
    ensures EP.FindInstance(UpsertAll(s, xs), id)
         == (match LastWithId(xs, id) case Some(x) => Some(x) case None => EP.FindInstance(s, id))
    decreases |xs|
  {
    if |xs| > 0 {
      var front := xs[..|xs| - 1];
      var x := xs[|xs| - 1];
      UpsertAllLastWins(s, front, id);
      if x.Id() == id {
        UpsertFinds(UpsertAll(s, front), x);
      } else {
        UpsertOthers(UpsertAll(s, front), x, id);
      }
    }
  }

  /** Marking a notification read touches only the notifications with that id,
      and marking it again changes nothing. */
  lemma MarkReadIdempotent(ns: seq<Notification>, id: string)
    ensures MarkRead(MarkRead(ns, id), id) == MarkRead(ns, id)
    ensures forall i :: 0 <= i < |ns| && ns[i].id == id ==> MarkRead(ns, id)[i].read
  {
    var once := MarkRead(ns, id);
    assert forall i :: 0 <= i < |ns| ==> MarkRead(once, id)[i] == once[i];
  }
}
