/** Visual grouping of consecutive actions in the builder (src/lib/utils.ts). A
    "with previous" action without a positive offset follows its predecessor
    immediately; such runs, together with the action they start from, form a
    group. Index 0 is never grouped. The source reads `actions[i]` without a
    bounds check, so each predicate requires the indexes it touches to exist. */
module Grouping {
  import opened Types

  /** `isImmediateSequence`: chained to the previous action with no offset (absent or 0). */
  predicate IsImmediateSequence(tr: TimeRange): (b: bool)
    ensures b <==> tr.kind == WithPrevious && (tr.offsetDays.None? || tr.offsetDays.value == 0)
  {
    tr.kind == WithPrevious && (!Truthy(tr.offsetDays) || tr.offsetDays == Some(0))
  }

  predicate Imm(actions: seq<Action>, i: nat)
    requires i < |actions|
  {
    IsImmediateSequence(actions[i].timeRange)
  }

  /** `isInGroup`: the first action never; an immediate action; the source an
      immediate successor connects to; nothing else. */
  predicate IsInGroup(actions: seq<Action>, i: nat): (b: bool)
    requires i == 0 || i < |actions|
    ensures i == 0 ==> !b
    ensures 0 < i < |actions| && Imm(actions, i) ==> b
    ensures 0 < i && i + 1 < |actions| && Imm(actions, i + 1) ==> b
    ensures b ==> 0 < i < |actions| && (Imm(actions, i) || (i + 1 < |actions| && Imm(actions, i + 1)))
  {
    if i == 0 then false
    else
      var isCurrentImmediate := Imm(actions, i);
      var isNextImmediate := i < |actions| - 1 && Imm(actions, i + 1);
      isCurrentImmediate || isNextImmediate
  }

  /** `isGroupStart`: from index 2 on, a source that is not itself chained and
      follows an unchained action; at index 1, any grouped action. */
  predicate IsGroupStart(actions: seq<Action>, i: nat): (b: bool)
    requires i == 0 || i < |actions|
    ensures b ==> 0 < i < |actions| && IsInGroup(actions, i)
    ensures i == 1 < |actions| ==> (b <==> IsInGroup(actions, 1))
    ensures 2 <= i < |actions| ==>
              (b <==> !Imm(actions, i - 1) && !Imm(actions, i) && i + 1 < |actions| && Imm(actions, i + 1))
  {
    if i == 0 then false
    else IsInGroup(actions, i) && !IsInGroup(actions, i - 1)
  }

  /** `isGroupEnd`. Both `i` and `i + 1` are looked up unless `i` is the last index.
      A group ends at a chained action past index 0 whose successor neither is
      chained nor is the source of a chained action. */
  predicate IsGroupEnd(actions: seq<Action>, i: nat): (b: bool)
    requires i < |actions|
    ensures b <==> 0 < i < |actions| - 1 && Imm(actions, i) && !Imm(actions, i + 1)
                   && !(i + 2 < |actions| && Imm(actions, i + 2))
  {
    if i == |actions| - 1 then false
    else IsInGroup(actions, i) && !IsInGroup(actions, i + 1)
  }

  /** An action is chained immediately exactly when it is "with previous" and its
      offset is missing or not a nonzero number. */
  lemma ImmediateIff(tr: TimeRange)
    ensures IsImmediateSequence(tr) <==>
              tr.kind == WithPrevious && (tr.offsetDays.None? || tr.offsetDays.value == 0)
  {
  }

  /** An immediate action past index 0 is grouped, and so is its predecessor
      unless that predecessor is the first action. */
  lemma ImmediateJoinsPredecessor(actions: seq<Action>, i: nat)
    requires 0 < i < |actions| && Imm(actions, i)
    ensures IsInGroup(actions, i)
    ensures i >= 2 ==> IsInGroup(actions, i - 1)
  {
  }

  /** An action that is not immediate and is not followed by an immediate one
      is not grouped, even if it comes right after a group. */
  lemma NotImmediateNotSourceUngrouped(actions: seq<Action>, i: nat)
    requires 0 < i < |actions| && !Imm(actions, i)
    requires i == |actions| - 1 || !Imm(actions, i + 1)
    ensures !IsInGroup(actions, i)
  {
  }

  /** At index 2 and later, a group starts exactly at a non-immediate source
      whose successor is immediate and whose predecessor is not. */
  lemma GroupStartIsSource(actions: seq<Action>, i: nat)
    requires 2 <= i < |actions|
    ensures IsGroupStart(actions, i) <==>
              !Imm(actions, i - 1) && !Imm(actions, i) && i + 1 < |actions| && Imm(actions, i + 1)
  {
  }

  /** At index 1 the first action cannot be grouped, so an immediate action 1 starts
      a group by itself, without the action it is chained to. */
  lemma SecondActionStartsWithoutSource(actions: seq<Action>)
    requires |actions| >= 2 && Imm(actions, 1)
    ensures IsGroupStart(actions, 1) && !IsInGroup(actions, 0)
  {
  }

  /** A group ends at an immediate action whose successor is not immediate; the
      last action never ends a group. */
  lemma GroupEndIsLastImmediate(actions: seq<Action>, i: nat)
    requires i < |actions|
    ensures IsGroupEnd(actions, i) ==> 0 < i < |actions| - 1 && Imm(actions, i) && !Imm(actions, i + 1)
    ensures IsGroupEnd(actions, |actions| - 1) == false
  {
  }

  /** The last index of the group containing `i`: the first index from `i` on
      whose successor is not grouped, or the last index. */
  function GroupEndFrom(actions: seq<Action>, i: nat): (e: nat)
    requires 0 < i < |actions|
    ensures i <= e < |actions|
    decreases |actions| - i
  {
    if i == |actions| - 1 || !IsInGroup(actions, i + 1) then i
    else GroupEndFrom(actions, i + 1)
  }

  /** A group that starts closes: from a start, every index up to the end found by
      walking forward is grouped, and that end is a group end or the last action. */
  lemma {:induction false} GroupRunEnds(actions: seq<Action>, i: nat)
    requires 0 < i < |actions| && IsInGroup(actions, i)
    ensures var e := GroupEndFrom(actions, i);
            (IsGroupEnd(actions, e) || e == |actions| - 1)
            && forall k :: i <= k <= e ==> IsInGroup(actions, k)
    decreases |actions| - i
  {
    if i == |actions| - 1 || !IsInGroup(actions, i + 1) {
    } else {
      GroupRunEnds(actions, i + 1);
    }
  }
}
