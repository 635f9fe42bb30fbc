/** The in-memory half of the journey store (src/contexts/JourneyContext.tsx):
    the list of journeys, the one being edited, and the edits the builder makes
    to it. Each edit builds the new journey, makes it current and replaces the
    journey with the same id in the list. Fresh uuids and the clock are
    parameters. */
module JourneyContext {
  import opened Types
  import Seqs

  /** The actions' ids, in order. */
  function ActionIds(actions: seq<Action>): (r: seq<string>)
    ensures |r| == |actions| && forall i :: 0 <= i < |actions| ==> r[i] == actions[i].id
  {
    Seqs.Map(actions, (a: Action) => a.id)
  }

  /** `prev.map(j => j.id === updated.id ? updated : j)`. */
  function ReplaceJourney(journeys: seq<Journey>, updated: Journey): (r: seq<Journey>)
    ensures |r| == |journeys|
    ensures forall i :: 0 <= i < |journeys| ==> r[i] == (if journeys[i].id == updated.id then updated else journeys[i])
  {
    if |journeys| == 0 then []
    else [if journeys[0].id == updated.id then updated else journeys[0]] + ReplaceJourney(journeys[1..], updated)
  }

  /** The action node `addAction` appends. */
  function NewActionNode(nodeId: string, actionId: string, position: int): JourneyNode {
    JourneyNode(nodeId, ActionNode, Some(actionId), position)
  }

  /** The in-memory part of `addAction`: the action goes last with its fresh id,
      and one action node pointing at it goes after the existing nodes. */
  function AddActionTo(j: Journey, data: ActionData, actionId: string, nodeId: string, now: Instant): (r: Journey)
    ensures r.actions == j.actions + [WithId(data, actionId)]
    ensures r.nodes == j.nodes + [NewActionNode(nodeId, actionId, |j.nodes|)]
    ensures r.id == j.id && r.name == j.name && r.isDefault == j.isDefault && r.createdAt == j.createdAt
    ensures r.updatedAt == now
  {
    j.(actions := j.actions + [WithId(data, actionId)],
       nodes := j.nodes + [NewActionNode(nodeId, actionId, |j.nodes|)],
       updatedAt := now)
  }

  /** `Partial<Action>` without the id: a field that is present replaces the
      action's own. A present optional field may carry `undefined`, so
      `requiredCount` is an option of an option. */
  datatype ActionPatch = ActionPatch(
    actionTypeId: Option<string>,
    eventType: Option<string>,
    completionMode: Option<CompletionMode>,
    requiredCount: Option<Option<int>>,
    supportedProducts: Option<seq<Product>>,
    product: Option<Product>,
    visibleInChecklist: Option<bool>,
    supportsGuidance: Option<bool>,
    guidanceEnabled: Option<bool>,
    timeRange: Option<TimeRange>,
    reminders: Option<seq<Reminder>>)

  /** `{ ...action, ...updates }`. */
  function ApplyPatch(a: Action, p: ActionPatch): (r: Action)
    ensures r.id == a.id
  {
    a.(actionTypeId := GetOr(p.actionTypeId, a.actionTypeId),
       eventType := GetOr(p.eventType, a.eventType),
       completionMode := GetOr(p.completionMode, a.completionMode),
       requiredCount := GetOr(p.requiredCount, a.requiredCount),
       supportedProducts := GetOr(p.supportedProducts, a.supportedProducts),
       product := GetOr(p.product, a.product),
       visibleInChecklist := GetOr(p.visibleInChecklist, a.visibleInChecklist),
       supportsGuidance := GetOr(p.supportsGuidance, a.supportsGuidance),
       guidanceEnabled := GetOr(p.guidanceEnabled, a.guidanceEnabled),
       timeRange := GetOr(p.timeRange, a.timeRange),
       reminders := GetOr(p.reminders, a.reminders))
  }

  /** The patch the edit dialog sends: every field of the form's action. */
  function FullPatch(d: ActionData): ActionPatch {
    ActionPatch(Some(d.actionTypeId), Some(d.eventType), Some(d.completionMode), Some(d.requiredCount),
                Some(d.supportedProducts), Some(d.product), Some(d.visibleInChecklist), Some(d.supportsGuidance),
                Some(d.guidanceEnabled), Some(d.timeRange), Some(d.reminders))
  }

  /** A full patch turns the action into the form's action under its old id. */
  lemma FullPatchReplaces(a: Action, d: ActionData)
    ensures ApplyPatch(a, FullPatch(d)) == WithId(d, a.id)
  {
  }

  /** An empty patch changes nothing. */
  lemma EmptyPatchKeeps(a: Action)
    ensures ApplyPatch(a, ActionPatch(None, None, None, None, None, None, None, None, None, None, None)) == a
  {
  }

  function PatchActions(actions: seq<Action>, actionId: string, p: ActionPatch): (r: seq<Action>)
    ensures |r| == |actions|
    ensures forall i :: 0 <= i < |actions| ==>
              r[i] == (if actions[i].id == actionId then ApplyPatch(actions[i], p) else actions[i])
  {
    if |actions| == 0 then []
    else [if actions[0].id == actionId then ApplyPatch(actions[0], p) else actions[0]]
         + PatchActions(actions[1..], actionId, p)
  }

  /** The in-memory part of `updateAction`. */
  function UpdateActionIn(j: Journey, actionId: string, p: ActionPatch, now: Instant): (r: Journey)
    ensures r.actions == PatchActions(j.actions, actionId, p)
    ensures r.nodes == j.nodes && r.id == j.id && r.name == j.name && r.isDefault == j.isDefault
    ensures r.createdAt == j.createdAt && r.updatedAt == now
  {
    j.(actions := PatchActions(j.actions, actionId, p), updatedAt := now)
  }

  /** Updating keeps the action order and every id. */
  lemma UpdateKeepsOrder(j: Journey, actionId: string, p: ActionPatch, now: Instant)
    ensures ActionIds(UpdateActionIn(j, actionId, p, now).actions) == ActionIds(j.actions)
  {
  }

  /** The in-memory part of `deleteAction`: the action and every node pointing at
      it go; nodes without an action id, the start node among them, stay. */
  function DeleteActionFrom(j: Journey, actionId: string, now: Instant): (r: Journey)
    ensures forall a :: a in r.actions <==> a in j.actions && a.id != actionId
    ensures forall n :: n in r.nodes <==> n in j.nodes && n.actionId != Some(actionId)
    ensures r.id == j.id && r.name == j.name && r.isDefault == j.isDefault
    ensures r.createdAt == j.createdAt && r.updatedAt == now
  {
    j.(actions := Seqs.Filter(j.actions, (a: Action) => a.id != actionId),
       nodes := Seqs.Filter(j.nodes, (n: JourneyNode) => n.actionId != Some(actionId)),
       updatedAt := now)
  }

  /** Deleting keeps the order of what stays: both filters split over
      concatenation, and a single action or node stays exactly when it does not
      carry the id. */
  lemma DeleteInOrder(j: Journey, a: seq<Action>, b: seq<Action>, x: Action,
                      m: seq<JourneyNode>, n: seq<JourneyNode>, y: JourneyNode,
                      actionId: string, now: Instant)
    ensures DeleteActionFrom(j.(actions := a + b), actionId, now).actions
            == DeleteActionFrom(j.(actions := a), actionId, now).actions
               + DeleteActionFrom(j.(actions := b), actionId, now).actions
    ensures DeleteActionFrom(j.(actions := [x]), actionId, now).actions
            == if x.id != actionId then [x] else []
    ensures DeleteActionFrom(j.(nodes := m + n), actionId, now).nodes
            == DeleteActionFrom(j.(nodes := m), actionId, now).nodes
               + DeleteActionFrom(j.(nodes := n), actionId, now).nodes
    ensures DeleteActionFrom(j.(nodes := [y]), actionId, now).nodes
            == if y.actionId != Some(actionId) then [y] else []
  {
    var pa := (a: Action) => a.id != actionId;
    var pn := (n: JourneyNode) => n.actionId != Some(actionId);
    Seqs.FilterAppend(a, b, pa);
    Seqs.FilterSingleton(x, pa);
    Seqs.FilterAppend(m, n, pn);
    Seqs.FilterSingleton(y, pn);
  }

  /** Deleting keeps the start node. */
  lemma DeleteKeepsStartNodes(j: Journey, actionId: string, now: Instant, n: JourneyNode)
    requires n in j.nodes && n.actionId.None?
    ensures n in DeleteActionFrom(j, actionId, now).nodes
  {
  }

  /** Deleting an action just added, under an id no action or node used, gives
      back the journey as it was (apart from the time stamp). */
  lemma DeleteUndoesAdd(j: Journey, data: ActionData, actionId: string, nodeId: string, t1: Instant, t2: Instant)
    requires forall i :: 0 <= i < |j.actions| ==> j.actions[i].id != actionId
    requires forall i :: 0 <= i < |j.nodes| ==> j.nodes[i].actionId != Some(actionId)
    ensures DeleteActionFrom(AddActionTo(j, data, actionId, nodeId, t1), actionId, t2) == j.(updatedAt := t2)
  {
    var pa := (a: Action) => a.id != actionId;
    var pn := (n: JourneyNode) => n.actionId != Some(actionId);
    Seqs.FilterAppend(j.actions, [WithId(data, actionId)], pa);
    Seqs.FilterAll(j.actions, pa);
    assert Seqs.Filter([WithId(data, actionId)], pa) == [];
    Seqs.FilterAppend(j.nodes, [NewActionNode(nodeId, actionId, |j.nodes|)], pn);
    Seqs.FilterAll(j.nodes, pn);
    assert Seqs.Filter([NewActionNode(nodeId, actionId, |j.nodes|)], pn) == [];
  }

  /** `actions.find(a => a.id === id)`. */
  function FindAction(actions: seq<Action>, id: string): (r: Option<Action>)
    ensures r.Some? ==> r.value in actions && r.value.id == id
    ensures r.None? <==> forall i :: 0 <= i < |actions| ==> actions[i].id != id
  {
    if |actions| == 0 then None
    else if actions[0].id == id then Some(actions[0])
    else FindAction(actions[1..], id)
  }

  /** `actionIds.map(find).filter(defined)`. */
  function ReorderedActions(actions: seq<Action>, actionIds: seq<string>): (r: seq<Action>)
    ensures |r| <= |actionIds|
    ensures forall a :: a in r ==> a in actions && a.id in actionIds
  {
    if |actionIds| == 0 then []
    else
      var found := FindAction(actions, actionIds[0]);
      (if found.Some? then [found.value] else []) + ReorderedActions(actions, actionIds[1..])
  }

  /** `actionIds.indexOf(id)`: the first position, or -1. */
  function IndexOf(ids: seq<string>, id: string): (k: int)
    ensures -1 <= k < |ids|
    ensures k == -1 <==> id !in ids
    ensures k >= 0 ==> ids[k] == id && forall i :: 0 <= i < k ==> ids[i] != id
  {
    if |ids| == 0 then -1
    else if ids[0] == id then 0
    else
      var k := IndexOf(ids[1..], id);
      if k == -1 then -1 else k + 1
  }

  /** A node's place after a reorder: one past its action's new index, or
      unchanged when its action is not listed or it has no (non-empty) action id. */
  function RepositionNode(n: JourneyNode, actionIds: seq<string>): JourneyNode {
    if n.actionId.Some? && n.actionId.value != "" then
      var k := IndexOf(actionIds, n.actionId.value);
      n.(position := if k >= 0 then k + 1 else n.position)
    else n
  }

  function RepositionNodes(nodes: seq<JourneyNode>, actionIds: seq<string>): (r: seq<JourneyNode>)
    ensures |r| == |nodes| && forall i :: 0 <= i < |nodes| ==> r[i] == RepositionNode(nodes[i], actionIds)
  {
    if |nodes| == 0 then [] else [RepositionNode(nodes[0], actionIds)] + RepositionNodes(nodes[1..], actionIds)
  }

  /** The in-memory part of `reorderActions`. */
  function ReorderActionsIn(j: Journey, actionIds: seq<string>, now: Instant): (r: Journey)
    ensures r.actions == ReorderedActions(j.actions, actionIds)
    ensures r.nodes == RepositionNodes(j.nodes, actionIds)
    ensures r.id == j.id && r.name == j.name && r.isDefault == j.isDefault
    ensures r.createdAt == j.createdAt && r.updatedAt == now
  {
    j.(actions := ReorderedActions(j.actions, actionIds), nodes := RepositionNodes(j.nodes, actionIds), updatedAt := now)
  }

  /** Listed nodes move to one past their action's index; the rest, the start
      node among them, keep their place and every other field. An empty action
      id is falsy, so such a node is never moved. */
  lemma ReorderPositions(j: Journey, actionIds: seq<string>, now: Instant, i: nat)
    requires i < |j.nodes|
    ensures var n := j.nodes[i];
            var r := ReorderActionsIn(j, actionIds, now).nodes[i];
            r.id == n.id && r.nodeType == n.nodeType && r.actionId == n.actionId
            && (n.actionId.Some? && n.actionId.value != "" && n.actionId.value in actionIds ==>
                  r.position == IndexOf(actionIds, n.actionId.value) + 1 && actionIds[r.position - 1] == n.actionId.value)
            && (n.actionId.None? || n.actionId.value == "" || n.actionId.value !in actionIds ==> r.position == n.position)
  {
  }

  /** Reordering by a list of the journey's distinct action ids yields the
      actions with exactly those ids in that order; ids that match nothing are
      dropped. */
  lemma {:induction false} ReorderFollowsIds(actions: seq<Action>, actionIds: seq<string>)
    ensures ActionIds(ReorderedActions(actions, actionIds)) == Seqs.Filter(actionIds, (id: string) => id in ActionIds(actions))
  {
    if |actionIds| > 0 {
      ReorderFollowsIds(actions, actionIds[1..]);
      var found := FindAction(actions, actionIds[0]);
      var rest := ReorderedActions(actions, actionIds[1..]);
      if found.Some? {
        assert ActionIds([found.value] + rest) == [found.value.id] + ActionIds(rest);
        assert actionIds[0] in ActionIds(actions);
      } else {
        assert actionIds[0] !in ActionIds(actions);
      }
    }
  }

  /** `createJourney`: a non-default journey with no actions and a lone start node at 0. */
  function NewJourney(journeyId: string, name: string, startNodeId: string, now: Instant): (r: Journey)
    ensures r.id == journeyId && r.name == name && !r.isDefault && r.actions == []
    ensures r.nodes == [JourneyNode(startNodeId, StartNode, None, 0)]
    ensures r.createdAt == now && r.updatedAt == now
  {
    Journey(journeyId, name, false, [JourneyNode(startNodeId, StartNode, None, 0)], [], now, now)
  }

  /** `journeys.find(j => j.id === journeyId)`. */
  function FindJourney(journeys: seq<Journey>, journeyId: string): (r: Option<Journey>)
    ensures r.Some? ==> r.value in journeys && r.value.id == journeyId
    ensures r.None? <==> forall i :: 0 <= i < |journeys| ==> journeys[i].id != journeyId
  {
    if |journeys| == 0 then None
    else if journeys[0].id == journeyId then Some(journeys[0])
    else FindJourney(journeys[1..], journeyId)
  }

  /** What an edit reports: done, or the "No journey selected" error. */
  datatype Outcome = Saved | NoJourneySelected

  /** The store's state. */
  class JourneyStore {
    var journeys: seq<Journey>
    var currentJourney: Option<Journey>

    constructor (loaded: seq<Journey>)
      ensures journeys == loaded && currentJourney.None?
    {
      journeys := loaded;
      currentJourney := None;
    }

    /** `setCurrentJourney`: switch to a listed journey; an unknown id changes nothing. */
    method SetCurrentJourney(journeyId: string)
      modifies this
      ensures journeys == old(journeys)
      ensures FindJourney(journeys, journeyId).Some? ==> currentJourney == FindJourney(journeys, journeyId)
      ensures FindJourney(journeys, journeyId).None? ==> currentJourney == old(currentJourney)
    {
      var found := FindJourney(journeys, journeyId);
      if found.Some? {
        currentJourney := found;
      }
    }

    /** Make `updated` current and replace its namesake in the list. */
    method Commit(updated: Journey)
      modifies this
      ensures currentJourney == Some(updated) && journeys == ReplaceJourney(old(journeys), updated)
    {
      currentJourney := Some(updated);
      journeys := ReplaceJourney(journeys, updated);
    }

    /** `addAction`. */
    method AddAction(data: ActionData, actionId: string, nodeId: string, now: Instant) returns (outcome: Outcome)
      modifies this
      ensures old(currentJourney).None? ==> outcome == NoJourneySelected && unchanged(this)
      ensures old(currentJourney).Some? ==>
                var updated := AddActionTo(old(currentJourney).value, data, actionId, nodeId, now);
                outcome == Saved && currentJourney == Some(updated) && journeys == ReplaceJourney(old(journeys), updated)
    {
      if currentJourney.None? {
        return NoJourneySelected;
      }
      Commit(AddActionTo(currentJourney.value, data, actionId, nodeId, now));
      outcome := Saved;
    }

    /** `updateAction`. */
    method UpdateAction(actionId: string, p: ActionPatch, now: Instant) returns (outcome: Outcome)
      modifies this
      ensures old(currentJourney).None? ==> outcome == NoJourneySelected && unchanged(this)
      ensures old(currentJourney).Some? ==>
                var updated := UpdateActionIn(old(currentJourney).value, actionId, p, now);
                outcome == Saved && currentJourney == Some(updated) && journeys == ReplaceJourney(old(journeys), updated)
    {
      if currentJourney.None? {
        return NoJourneySelected;
      }
      Commit(UpdateActionIn(currentJourney.value, actionId, p, now));
      outcome := Saved;
    }

    /** `deleteAction`. */
    method DeleteAction(actionId: string, now: Instant) returns (outcome: Outcome)
      modifies this
      ensures old(currentJourney).None? ==> outcome == NoJourneySelected && unchanged(this)
      ensures old(currentJourney).Some? ==>
                var updated := DeleteActionFrom(old(currentJourney).value, actionId, now);
                outcome == Saved && currentJourney == Some(updated) && journeys == ReplaceJourney(old(journeys), updated)
    {
      if currentJourney.None? {
        return NoJourneySelected;
      }
      Commit(DeleteActionFrom(currentJourney.value, actionId, now));
      outcome := Saved;
    }

    /** `reorderActions`: silently nothing without a journey. */
    method ReorderActions(actionIds: seq<string>, now: Instant)
      modifies this
      ensures old(currentJourney).None? ==> unchanged(this)
      ensures old(currentJourney).Some? ==>
                var updated := ReorderActionsIn(old(currentJourney).value, actionIds, now);
                currentJourney == Some(updated) && journeys == ReplaceJourney(old(journeys), updated)
    {
      if currentJourney.Some? {
        Commit(ReorderActionsIn(currentJourney.value, actionIds, now));
      }
    }

    /** `createJourney`: append the new journey and make it current. */
    method CreateJourney(name: string, journeyId: string, startNodeId: string, now: Instant)
      modifies this
      ensures journeys == old(journeys) + [NewJourney(journeyId, name, startNodeId, now)]
      ensures currentJourney == Some(NewJourney(journeyId, name, startNodeId, now))
    {
      var j := NewJourney(journeyId, name, startNodeId, now);
      journeys := journeys + [j];
      currentJourney := Some(j);
    }
  }

  /** An edit replaces only the journey with the edited id; when ids are unique
      other journeys are untouched and the edited one appears exactly where it was. */
  lemma ReplaceOnlyNamesake(journeys: seq<Journey>, updated: Journey, i: nat)
    requires i < |journeys|
    ensures journeys[i].id != updated.id ==> ReplaceJourney(journeys, updated)[i] == journeys[i]
    ensures journeys[i].id == updated.id ==> ReplaceJourney(journeys, updated)[i] == updated
    ensures FindJourney(journeys, updated.id).Some? ==> FindJourney(ReplaceJourney(journeys, updated), updated.id) == Some(updated)
  {
    var r := ReplaceJourney(journeys, updated);
    if FindJourney(journeys, updated.id).Some? {
      var k :| 0 <= k < |journeys| && journeys[k].id == updated.id;
      assert r[k].id == updated.id;
      FindFirstMatch(r, updated.id);
    }
  }

  /** The journey `find` returns is equal to every entry with that id up to the first. */
  lemma {:induction false} FindFirstMatch(js: seq<Journey>, id: string)
    requires FindJourney(js, id).Some?
    ensures exists k :: 0 <= k < |js| && js[k].id == id && FindJourney(js, id) == Some(js[k])
                        && forall i :: 0 <= i < k ==> js[i].id != id
  {
    if js[0].id != id {
      FindFirstMatch(js[1..], id);
      var k :| 0 <= k < |js[1..]| && js[1..][k].id == id && FindJourney(js[1..], id) == Some(js[1..][k])
                && forall i :: 0 <= i < k ==> js[1..][i].id != id;
      assert js[k + 1] == js[1..][k];
      assert forall i :: 1 <= i < k + 1 ==> js[i] == js[1..][i - 1];
    }
  }
}
