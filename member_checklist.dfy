/** The member's read-only checklist (src/components/checklist/MemberChecklist.tsx):
    the journey's visible actions in node order, each shown with no completion
    data and with the journey entry as its "previous action" completion. */
module MemberChecklist {
  import opened Types
  import Seqs
  import CU = ChecklistUtils

  /** The position used for an action without a node. */
  const NoNodePosition := 9999

  /** `journey.nodes.find(n => n.actionId === id)?.position ?? 9999`. */
  function NodePosition(nodes: seq<JourneyNode>, id: string): (r: int)
    ensures (forall k :: 0 <= k < |nodes| ==> nodes[k].actionId != Some(id)) ==> r == NoNodePosition
    ensures forall k :: 0 <= k < |nodes| && nodes[k].actionId == Some(id)
                        && (forall j :: 0 <= j < k ==> nodes[j].actionId != Some(id))
                        ==> r == nodes[k].position
  {
    if |nodes| == 0 then NoNodePosition
    else if nodes[0].actionId == Some(id) then nodes[0].position
    else NodePosition(nodes[1..], id)
  }

  function IsVisible(a: Action): bool {
    a.visibleInChecklist
  }

  /** The sort key: the action's node position. */
  function PositionKey(nodes: seq<JourneyNode>): Action -> int {
    (a: Action) => NodePosition(nodes, a.id)
  }

  /** The `visibleActions` memo: the visible actions sorted by node position;
      the sort is stable, so ties keep journey order. */
  function VisibleActions(journey: Option<Journey>): (r: seq<Action>)
    ensures journey.None? ==> r == []
    ensures journey.Some? ==>
              multiset(r) == multiset(Seqs.Filter(journey.value.actions, IsVisible))
              && Seqs.SortedByKey(r, PositionKey(journey.value.nodes))
  {
    match journey
    case None => []
    case Some(j) => Seqs.SortByKey(Seqs.Filter(j.actions, IsVisible), PositionKey(j.nodes))
  }

  /** Exactly the visible actions of the journey are listed. */
  lemma VisibleIff(j: Journey, a: Action)
    ensures a in VisibleActions(Some(j)) <==> a in j.actions && a.visibleInChecklist
  {
    var r := VisibleActions(Some(j));
    var f := Seqs.Filter(j.actions, IsVisible);
    assert a in r <==> a in multiset(r);
    assert a in f <==> a in multiset(f);
  }

  /** Actions sharing a position appear in journey order. */
  lemma TiesKeepJourneyOrder(j: Journey, position: int)
    ensures Seqs.WithKey(VisibleActions(Some(j)), PositionKey(j.nodes), position)
         == Seqs.WithKey(Seqs.Filter(j.actions, IsVisible), PositionKey(j.nodes), position)
  {
    Seqs.SortKeepsKeyClasses(Seqs.Filter(j.actions, IsVisible), PositionKey(j.nodes), position);
  }

  /** Visible actions already in node order are listed as they are. */
  lemma OrderedJourneyUnchanged(j: Journey)
    requires Seqs.SortedByKey(Seqs.Filter(j.actions, IsVisible), PositionKey(j.nodes))
    ensures VisibleActions(Some(j)) == Seqs.Filter(j.actions, IsVisible)
  {
    Seqs.SortOfSorted(Seqs.Filter(j.actions, IsVisible), PositionKey(j.nodes));
  }

  /** A visible action with no node comes after every action whose node position is below 9999. */
  lemma NodelessActionsLast(j: Journey, i: int, k: int)
    requires var r := VisibleActions(Some(j));
             0 <= i < |r| && 0 <= k < |r|
             && (forall n :: 0 <= n < |j.nodes| ==> j.nodes[n].actionId != Some(r[i].id))
             && NodePosition(j.nodes, r[k].id) < NoNodePosition
    ensures k < i
  {
    var r := VisibleActions(Some(j));
    assert PositionKey(j.nodes)(r[i]) == NoNodePosition;
    assert PositionKey(j.nodes)(r[k]) < NoNodePosition;
  }

  /** The arguments one `ChecklistItem` receives. */
  datatype ItemArgs = ItemArgs(
    action: Action,
    entryCompletedAt: Option<Instant>,
    previousActionCompletedAt: Option<Instant>,
    currentCount: int,
    completedAt: Option<Instant>,
    currentTime: Instant)

  function ArgsFor(a: Action, entryCompletedAt: Option<Instant>, currentTime: Instant): ItemArgs {
    ItemArgs(a, entryCompletedAt, entryCompletedAt, 0, None, currentTime)
  }

  function MapArgs(actions: seq<Action>, entryCompletedAt: Option<Instant>, currentTime: Instant): (r: seq<ItemArgs>)
    ensures |r| == |actions|
    ensures forall i :: 0 <= i < |actions| ==> r[i] == ArgsFor(actions[i], entryCompletedAt, currentTime)
  {
    if |actions| == 0 then []
    else [ArgsFor(actions[0], entryCompletedAt, currentTime)] + MapArgs(actions[1..], entryCompletedAt, currentTime)
  }

  /** The items handed to the checklist: one per visible action, in order. No item
      gets completion data, and the previous-action completion never advances past
      the entry: every item is handed the entry time. */
  function ChecklistItems(journey: Option<Journey>, entryCompletedAt: Option<Instant>, currentTime: Instant)
    : (items: seq<ItemArgs>)
    ensures |items| == |VisibleActions(journey)|
    ensures forall i :: 0 <= i < |items| ==>
              && items[i].action == VisibleActions(journey)[i]
              && items[i].completedAt.None?
              && items[i].currentCount == 0
              && items[i].previousActionCompletedAt == entryCompletedAt
              && items[i].entryCompletedAt == entryCompletedAt
              && items[i].currentTime == currentTime
  {
    MapArgs(VisibleActions(journey), entryCompletedAt, currentTime)
  }

  /** With no completion and a count of 0, an item shows DONE only for a counter
      action with a negative required count, and never shows IN_PROGRESS. */
  lemma ReadOnlyStatus(journey: Option<Journey>, entryCompletedAt: Option<Instant>, currentTime: Instant,
                       i: int, deadline: Option<Instant>)
    requires 0 <= i < |ChecklistItems(journey, entryCompletedAt, currentTime)|
    ensures var it := ChecklistItems(journey, entryCompletedAt, currentTime)[i];
            var s := CU.GetActionStatus(it.action, deadline, it.currentTime, it.completedAt, Some(it.currentCount));
            s != InProgress
            && (s == Done <==> it.action.completionMode == Counter && it.action.requiredCount.Some?
                               && it.action.requiredCount.value < 0)
  {
  }
}
