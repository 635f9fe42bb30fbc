/** The event buttons of the checklist's simulator panel
    (src/components/checklist/EventSimulatorPanel.tsx): one button per distinct
    (event type, product) pair of the journey's actions, in first-appearance
    order, each showing how often that pair has been triggered. */
module EventSimulatorPanel {
  import opened Types
  import Seqs
  import AL = ActionLibrary

  datatype EventTrigger = EventTrigger(eventType: string, product: Product, title: string)

  /** The product's string value, as it appears inside a key. */
  function ProductName(p: Product): (s: string)
    ensures forall i :: 0 <= i < |s| ==> s[i] != ':'
  {
    match p
    case Bma => "BMA"
    case FitHub => "FITHUB"
    case TrainerApp => "TRAINER_APP"
    case SmartStrength => "SMART_STRENGTH"
    case UnknownProduct => "UNKNOWN"
  }

  /** The map key `${eventType}:${product}`. */
  function EventKey(eventType: string, product: Product): string {
    eventType + ":" + ProductName(product)
  }

  /** No product name contains ':', so the key's last ':' separates the two
      parts and different pairs never share a key, whatever the event type. */
  lemma EventKeyInjective(e1: string, p1: Product, e2: string, p2: Product)
    requires EventKey(e1, p1) == EventKey(e2, p2)
    ensures e1 == e2 && p1 == p2
  {
    var k := EventKey(e1, p1);
    KeyShape(e1, p1);
    KeyShape(e2, p2);
    if |e1| == |e2| {
      assert e1 == k[..|e1|] == e2;
      assert ProductName(p1) == k[|e1| + 1..] == ProductName(p2);
    }
  }

  /** The key is the event type, a ':' and the product name, which holds no ':'. */
  lemma KeyShape(e: string, p: Product)
    ensures var k := EventKey(e, p);
            && |k| == |e| + 1 + |ProductName(p)|
            && k[..|e|] == e && k[|e|] == ':' && k[|e| + 1..] == ProductName(p)
            && forall i :: |e| < i < |k| ==> k[i] != ':'
  {
    var k := EventKey(e, p);
    assert forall i :: |e| < i < |k| ==> k[i] == ProductName(p)[i - |e| - 1];
  }

  /** The library title, or the event type when the library has no (non-empty) title. */
  function TriggerOf(a: Action): EventTrigger {
    var title := match AL.GetActionLibraryItem(a.actionTypeId)
                 case Some(item) => if item.title != "" then item.title else a.eventType
                 case None => a.eventType;
    EventTrigger(a.eventType, a.product, title)
  }

  function KeyOf(t: EventTrigger): string {
    EventKey(t.eventType, t.product)
  }

  predicate HasPair(ts: seq<EventTrigger>, eventType: string, product: Product) {
    exists i :: 0 <= i < |ts| && ts[i].eventType == eventType && ts[i].product == product
  }

  /** The keys of the triggers. */
  function KeysOf(ts: seq<EventTrigger>): set<string>
    decreases |ts|
  {
    if |ts| == 0 then {} else KeysOf(ts[..|ts| - 1]) + {KeyOf(ts[|ts| - 1])}
  }

  /** A pair's key is among the triggers' keys exactly when the pair is. */
  lemma {:induction false} KeyPresentIff(ts: seq<EventTrigger>, eventType: string, product: Product)
    ensures EventKey(eventType, product) in KeysOf(ts) <==> HasPair(ts, eventType, product)
    decreases |ts|
  {
    if |ts| > 0 {
      var n := |ts| - 1;
      var front := ts[..n];
      KeyPresentIff(front, eventType, product);
      if KeyOf(ts[n]) == EventKey(eventType, product) {
        EventKeyInjective(ts[n].eventType, ts[n].product, eventType, product);
      }
      if HasPair(front, eventType, product) {
        var i :| 0 <= i < |front| && front[i].eventType == eventType && front[i].product == product;
        assert ts[i] == front[i];
      }
      if HasPair(ts, eventType, product) {
        var i :| 0 <= i < |ts| && ts[i].eventType == eventType && ts[i].product == product;
        if i < n {
          assert front[i] == ts[i];
        }
      }
    }
  }

  /** The triggers of the actions, one per pair, the first action of each pair
      giving its title. */
  function Dedupe(actions: seq<Action>): (ts: seq<EventTrigger>)
    decreases |actions|
  {
    if |actions| == 0 then []
    else
      var front := Dedupe(actions[..|actions| - 1]);
      var a := actions[|actions| - 1];
      if HasPair(front, a.eventType, a.product) then front else front + [TriggerOf(a)]
  }

  /** At most one button per action, at least one when there is an action, and
      the first action's button first. */
  lemma {:induction false} DedupeSizes(actions: seq<Action>)
    ensures var ts := Dedupe(actions);
            |ts| <= |actions| && (|actions| > 0 ==> |ts| > 0 && ts[0] == TriggerOf(actions[0]))
    decreases |actions|
  {
    if |actions| > 1 {
      var front := actions[..|actions| - 1];
      DedupeSizes(front);
      assert front[0] == actions[0];
    }
  }

  /** `availableEvents`. */
  function AvailableEvents(journey: Option<Journey>): (ts: seq<EventTrigger>)
    ensures journey.None? ==> ts == []
    ensures journey.Some? ==> |ts| <= |journey.value.actions|
    ensures journey.Some? && |journey.value.actions| > 0 ==>
              |ts| > 0 && ts[0] == TriggerOf(journey.value.actions[0])
  {
    match journey
    case None => []
    case Some(j) => DedupeSizes(j.actions); Dedupe(j.actions)
  }

  lemma DedupeStep(actions: seq<Action>, i: int)
    requires 0 <= i < |actions|
    ensures var prev := Dedupe(actions[..i]);
            var a := actions[i];
            Dedupe(actions[..i + 1]) == if HasPair(prev, a.eventType, a.product) then prev else prev + [TriggerOf(a)]
  {
    assert actions[..i + 1][..i] == actions[..i];
  }

  lemma KeysStep(ts: seq<EventTrigger>, t: EventTrigger)
    ensures KeysOf(ts + [t]) == KeysOf(ts) + {KeyOf(t)}
  {
    assert (ts + [t])[..|ts|] == ts;
  }

  /** The `forEach`: a map keyed by the pair's string, written once per key;
      `events` holds its values in insertion order. */
  method FillEventMap(actions: seq<Action>) returns (events: seq<EventTrigger>)
    ensures events == Dedupe(actions)
  {
    var eventMap: map<string, EventTrigger> := map[];
    events := [];
    var i := 0;
    while i < |actions|
      invariant 0 <= i <= |actions|
      invariant events == Dedupe(actions[..i])
      invariant eventMap.Keys == KeysOf(events)
    {
      var action := actions[i];
      var key := EventKey(action.eventType, action.product);
      DedupeStep(actions, i);
      KeyPresentIff(events, action.eventType, action.product);
      if key !in eventMap {
        KeysStep(events, TriggerOf(action));
        eventMap := eventMap[key := TriggerOf(action)];
        events := events + [TriggerOf(action)];
      }
      i := i + 1;
    }
    assert actions[..i] == actions;
  }

  /** The `availableEvents` memo: nothing without a journey. */
  method ComputeAvailableEvents(journey: Option<Journey>) returns (events: seq<EventTrigger>)
    ensures events == AvailableEvents(journey)
  {
    if journey.None? {
      return [];
    }
    events := FillEventMap(journey.value.actions);
  }

  predicate PairsUnique(ts: seq<EventTrigger>) {
    forall i, j :: 0 <= i < j < |ts| ==> ts[i].eventType != ts[j].eventType || ts[i].product != ts[j].product
  }

  /** No two buttons share a pair. */
  lemma {:induction false} PairsDistinct(actions: seq<Action>)
    ensures PairsUnique(Dedupe(actions))
    decreases |actions|
  {
    if |actions| > 0 {
      var front := actions[..|actions| - 1];
      PairsDistinct(front);
      var prev := Dedupe(front);
      var a := actions[|actions| - 1];
      if !HasPair(prev, a.eventType, a.product) {
        var ts := Dedupe(actions);
        assert ts == prev + [TriggerOf(a)];
        forall i, j | 0 <= i < j < |ts|
          ensures ts[i].eventType != ts[j].eventType || ts[i].product != ts[j].product
        {
          if j == |prev| {
            assert ts[j].eventType == a.eventType && ts[j].product == a.product;
            assert !(prev[i].eventType == a.eventType && prev[i].product == a.product);
          } else {
            assert ts[i] == prev[i] && ts[j] == prev[j];
          }
        }
      } else {
        assert Dedupe(actions) == prev;
      }
    }
  }

  /** Every action's pair has a button. */
  lemma {:induction false} EveryPairOffered(actions: seq<Action>)
    ensures forall k :: 0 <= k < |actions| ==> HasPair(Dedupe(actions), actions[k].eventType, actions[k].product)
    decreases |actions|
  {
    if |actions| > 0 {
      var n := |actions| - 1;
      var front := actions[..n];
      EveryPairOffered(front);
      var ts := Dedupe(actions);
      forall k | 0 <= k < |actions|
        ensures HasPair(ts, actions[k].eventType, actions[k].product)
      {
        if k < n {
          assert actions[k] == front[k];
          var i :| 0 <= i < |Dedupe(front)| && Dedupe(front)[i].eventType == front[k].eventType
                   && Dedupe(front)[i].product == front[k].product;
          assert ts[i] == Dedupe(front)[i];
        } else if !HasPair(Dedupe(front), actions[n].eventType, actions[n].product) {
          assert ts[|ts| - 1] == TriggerOf(actions[n]);
        }
      }
    }
  }

  /** `actions[k]` is the first action with its pair. */
  predicate FirstOfPair(actions: seq<Action>, k: int)
    requires 0 <= k < |actions|
  {
    forall j :: 0 <= j < k ==> actions[j].eventType != actions[k].eventType || actions[j].product != actions[k].product
  }

  /** `t` is the trigger of the first action with its pair. */
  predicate FromFirstAction(actions: seq<Action>, t: EventTrigger) {
    exists k :: 0 <= k < |actions| && FirstOfPair(actions, k) && t == TriggerOf(actions[k])
  }

  /** Every button is the trigger of the first action with its pair. */
  lemma {:induction false} ButtonsFromFirstActions(actions: seq<Action>)
    ensures var ts := Dedupe(actions);
            forall i :: 0 <= i < |ts| ==> FromFirstAction(actions, ts[i])
    decreases |actions|
  {
    if |actions| > 0 {
      var n := |actions| - 1;
      var front := actions[..n];
      ButtonsFromFirstActions(front);
      EveryPairOffered(front);
      var prev := Dedupe(front);
      var ts := Dedupe(actions);
      forall i | 0 <= i < |ts|
        ensures FromFirstAction(actions, ts[i])
      {
        if i < |prev| {
          assert 0 <= i < |Dedupe(front)|;
          assert FromFirstAction(front, prev[i]);
          var k :| 0 <= k < |front| && FirstOfPair(front, k) && prev[i] == TriggerOf(front[k]);
          assert actions[k] == front[k];
          assert forall j :: 0 <= j < k ==> actions[j] == front[j];
          assert FirstOfPair(actions, k);
        } else {
          assert ts[i] == TriggerOf(actions[n]);
          forall j | 0 <= j < n
            ensures actions[j].eventType != actions[n].eventType || actions[j].product != actions[n].product
          {
            assert actions[j] == front[j];
          }
          assert FirstOfPair(actions, n);
        }
      }
    }
  }

  /** The first action of a pair within a prefix is the first in the whole list. */
  lemma FirstOfPairInPrefix(actions: seq<Action>, n: nat, k: nat)
    requires k < n <= |actions| && FirstOfPair(actions[..n], k)
    ensures FirstOfPair(actions, k)
  {
    assert forall j :: 0 <= j <= k ==> actions[j] == actions[..n][j];
  }

  /** Buttons come in the order in which their pairs first appear: for buttons
      `i < j`, the first action of button i's pair precedes that of button j's. */
  lemma {:induction false} ButtonsInFirstAppearanceOrder(actions: seq<Action>, i: nat, j: nat)
    requires i < j < |Dedupe(actions)|
    ensures exists ki, kj :: 0 <= ki < kj < |actions| && FirstOfPair(actions, ki) && FirstOfPair(actions, kj)
                             && Dedupe(actions)[i] == TriggerOf(actions[ki])
                             && Dedupe(actions)[j] == TriggerOf(actions[kj])
    decreases |actions|
  {
    var n := |actions| - 1;
    var front := actions[..n];
    var prev := Dedupe(front);
    var ts := Dedupe(actions);
    var a := actions[n];
    if j < |prev| {
      assert ts[i] == prev[i] && ts[j] == prev[j];
      ButtonsInFirstAppearanceOrder(front, i, j);
      var ki, kj :| 0 <= ki < kj < |front| && FirstOfPair(front, ki) && FirstOfPair(front, kj)
                    && prev[i] == TriggerOf(front[ki]) && prev[j] == TriggerOf(front[kj]);
      FirstOfPairInPrefix(actions, n, ki);
      FirstOfPairInPrefix(actions, n, kj);
      assert actions[ki] == front[ki] && actions[kj] == front[kj];
    } else {
      assert !HasPair(prev, a.eventType, a.product);
      assert ts == prev + [TriggerOf(a)];
      ButtonsFromFirstActions(front);
      assert FromFirstAction(front, prev[i]);
      var ki :| 0 <= ki < |front| && FirstOfPair(front, ki) && prev[i] == TriggerOf(front[ki]);
      FirstOfPairInPrefix(actions, n, ki);
      assert actions[ki] == front[ki];
      EveryPairOffered(front);
      forall k | 0 <= k < n
        ensures actions[k].eventType != a.eventType || actions[k].product != a.product
      {
        assert actions[k] == front[k];
      }
      assert FirstOfPair(actions, n);
      assert ts[i] == TriggerOf(actions[ki]) && ts[j] == TriggerOf(actions[n]);
    }
  }

  /** `triggerCount`: the events with exactly this pair. */
  function TriggerCount(events: seq<Event>, eventType: string, product: Product): (n: nat)
    ensures n <= |events|
  {
    |Seqs.Filter(events, (e: Event) => e.eventType == eventType && e.product == product)|
  }

  /** Triggering an event (the simulator puts it first) raises its own pair's
      count by one and leaves every other pair's count alone. */
  lemma TriggerCountStep(events: seq<Event>, e: Event, eventType: string, product: Product)
    ensures TriggerCount([e] + events, eventType, product)
         == TriggerCount(events, eventType, product)
            + (if e.eventType == eventType && e.product == product then 1 else 0)
  {
    assert ([e] + events)[1..] == events;
  }

  /** A journey with no actions, or no journey, offers no buttons. */
  lemma NoActionsNoButtons(journey: Option<Journey>)
    requires journey.None? || |journey.value.actions| == 0
    ensures AvailableEvents(journey) == []
  {
  }
}
