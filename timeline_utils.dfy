/** Timeline derivation for the builder (src/lib/timelineUtils.ts): day
    positions along the chain of deadlines, the journey's length, and which
    standard markers the timeline shows. Days are whole numbers; -1 marks an
    action without a deadline. */
module TimelineUtils {
  import opened Types
  import opened Seqs

  datatype TimelinePosition = TimelinePosition(actionId: string, days: int, action: Action)

  datatype MarkerUnit = DaysUnit | WeeksUnit | MonthsUnit | YearsUnit

  datatype TimelineMarker = TimelineMarker(days: int, labelText: string, unit: MarkerUnit)

  const StandardMarkers: seq<TimelineMarker> := [
    TimelineMarker(1, "1 Day", DaysUnit),
    TimelineMarker(7, "1 Week", WeeksUnit),
    TimelineMarker(14, "2 Weeks", WeeksUnit),
    TimelineMarker(28, "4 Weeks", WeeksUnit),
    TimelineMarker(60, "2 Months", MonthsUnit),
    TimelineMarker(90, "3 Months", MonthsUnit),
    TimelineMarker(180, "6 Months", MonthsUnit),
    TimelineMarker(365, "1 Year", YearsUnit)
  ]

  const KeyMilestones: seq<int> := [1, 7, 90]

  const StartMarker: TimelineMarker := TimelineMarker(0, "Start", DaysUnit)

  const DefaultMaxDays: int := 90

  /** `calculateActionDeadline`: the day an action's deadline falls on, given the
      day of the previous deadline in the chain. */
  function CalculateActionDeadline(action: Action, previousDeadline: Option<int>): (r: Option<int>)
    ensures action.timeRange.kind == NoDeadline ==> r == None
    ensures action.timeRange.kind == Absolute ==>
              r == (if Truthy(action.timeRange.durationDays) then action.timeRange.durationDays else None)
    ensures action.timeRange.kind == WithPrevious && previousDeadline.None? ==> r == None
    ensures action.timeRange.kind == WithPrevious && previousDeadline.Some? ==>
              r == Some(previousDeadline.value + OrElse(action.timeRange.offsetDays, 0))
  {
    match action.timeRange.kind
    case NoDeadline => None
    case Absolute => if Truthy(action.timeRange.durationDays) then action.timeRange.durationDays else None
    case WithPrevious =>
      if previousDeadline.None? then None
      else Some(previousDeadline.value + OrElse(action.timeRange.offsetDays, 0))
  }

  /** The positions of the first `|actions|` actions and the running previous deadline. */
  function PositionsAndChain(actions: seq<Action>): (r: (seq<TimelinePosition>, Option<int>))
    ensures |r.0| == |actions| && r.1.Some?
    ensures forall i :: 0 <= i < |actions| ==> r.0[i].actionId == actions[i].id && r.0[i].action == actions[i]
    ensures |actions| > 0 ==> r.0[0].days == 0
    decreases |actions|
  {
    if |actions| == 0 then ([], Some(0))
    else
      var prefix := PositionsAndChain(actions[..|actions| - 1]);
      var a := actions[|actions| - 1];
      if |actions| == 1 then ([TimelinePosition(a.id, 0, a)], Some(0))
      else
        var d := CalculateActionDeadline(a, prefix.1);
        if d.Some? then (prefix.0 + [TimelinePosition(a.id, d.value, a)], d)
        else (prefix.0 + [TimelinePosition(a.id, -1, a)], prefix.1)
  }

  /** `calculateTimelinePositions`' result: one position per action, in order;
      the first action sits at day 0. */
  function Positions(actions: seq<Action>): (r: seq<TimelinePosition>)
    ensures |r| == |actions|
    ensures forall i :: 0 <= i < |actions| ==> r[i].actionId == actions[i].id && r[i].action == actions[i]
    ensures |actions| > 0 ==> r[0].days == 0
  {
    PositionsAndChain(actions).0
  }

  /** The previous deadline the loop holds when it reaches action `i`. */
  function ChainBefore(actions: seq<Action>, i: nat): int
    requires i <= |actions|
  {
    PositionsAndChain(actions[..i]).1.value
  }

  /** `calculateTimelinePositions`. */
  method CalculateTimelinePositions(actions: seq<Action>) returns (positions: seq<TimelinePosition>)
    ensures positions == Positions(actions)
    ensures |positions| == |actions|
    ensures forall i :: 0 <= i < |actions| ==>
              positions[i].actionId == actions[i].id && positions[i].action == actions[i]
  {
    positions := [];
    var previousDeadline: Option<int> := Some(0);
    var index := 0;
    while index < |actions|
      invariant 0 <= index <= |actions|
      invariant positions == PositionsAndChain(actions[..index]).0
      invariant previousDeadline == PositionsAndChain(actions[..index]).1
    {
      var action := actions[index];
      ChainStep(actions, index);
      if index == 0 {
        positions := positions + [TimelinePosition(action.id, 0, action)];
        previousDeadline := Some(0);
      } else {
        var deadline := CalculateActionDeadline(action, previousDeadline);
        if deadline.Some? {
          positions := positions + [TimelinePosition(action.id, deadline.value, action)];
          previousDeadline := deadline;
        } else {
          positions := positions + [TimelinePosition(action.id, -1, action)];
        }
      }
      index := index + 1;
    }
    assert actions[..index] == actions;
  }

  /** One more action is one more step of the loop. */
  lemma ChainStep(actions: seq<Action>, i: nat)
    requires i < |actions|
    ensures var prefix := PositionsAndChain(actions[..i]);
            var a := actions[i];
            var d := CalculateActionDeadline(a, prefix.1);
            PositionsAndChain(actions[..i + 1])
            == if i == 0 then ([TimelinePosition(a.id, 0, a)], Some(0))
               else if d.Some? then (prefix.0 + [TimelinePosition(a.id, d.value, a)], d)
               else (prefix.0 + [TimelinePosition(a.id, -1, a)], prefix.1)
  {
    assert actions[..i + 1][..i] == actions[..i];
  }

  /** The positions of a prefix are a prefix of the positions. */
  lemma {:induction false} PositionsPrefix(actions: seq<Action>, n: nat)
    requires n <= |actions|
    ensures Positions(actions[..n]) == Positions(actions)[..n]
    decreases |actions|
  {
    if n < |actions| {
      var front := actions[..|actions| - 1];
      assert front[..n] == actions[..n];
      PositionsPrefix(front, n);
    } else {
      assert actions[..n] == actions;
    }
  }

  /** The position of action `i`, computed from the chain before it. */
  lemma PositionAt(actions: seq<Action>, i: nat)
    requires 0 < i < |actions|
    ensures Positions(actions)[i].days
         == GetOr(CalculateActionDeadline(actions[i], Some(ChainBefore(actions, i))), -1)
    ensures ChainBefore(actions, i + 1)
         == GetOr(CalculateActionDeadline(actions[i], Some(ChainBefore(actions, i))), ChainBefore(actions, i))
  {
    PositionsPrefix(actions, i + 1);
    assert actions[..i + 1][..i] == actions[..i];
  }

  /** The entry action is always at day 0, whatever its time range. */
  lemma FirstAtZero(actions: seq<Action>)
    requires |actions| > 0
    ensures Positions(actions)[0].days == 0
  {
    PositionsPrefix(actions, 1);
  }

  /** A later `ABSOLUTE` action sits at its truthy duration, otherwise at -1. */
  lemma AbsolutePosition(actions: seq<Action>, i: nat)
    requires 0 < i < |actions| && actions[i].timeRange.kind == Absolute
    ensures Positions(actions)[i].days
         == (if Truthy(actions[i].timeRange.durationDays) then actions[i].timeRange.durationDays.value else -1)
  {
    PositionAt(actions, i);
  }

  /** A later `NONE` action sits at -1. */
  lemma NonePosition(actions: seq<Action>, i: nat)
    requires 0 < i < |actions| && actions[i].timeRange.kind == NoDeadline
    ensures Positions(actions)[i].days == -1
  {
    PositionAt(actions, i);
  }

  /** A later `WITH_PREVIOUS` action sits its offset (0 if none) after the chain. */
  lemma WithPreviousPosition(actions: seq<Action>, i: nat)
    requires 0 < i < |actions| && actions[i].timeRange.kind == WithPrevious
    ensures Positions(actions)[i].days == ChainBefore(actions, i) + OrElse(actions[i].timeRange.offsetDays, 0)
    ensures ChainBefore(actions, i + 1) == Positions(actions)[i].days
  {
    PositionAt(actions, i);
  }

  /** The chain starts at 0; an action without a deadline leaves it where it was,
      and one with a deadline moves it to that day. */
  lemma ChainSteps(actions: seq<Action>, i: nat)
    requires 0 < i < |actions|
    ensures ChainBefore(actions, 1) == 0
    ensures CalculateActionDeadline(actions[i], Some(ChainBefore(actions, i))).None? ==>
              ChainBefore(actions, i + 1) == ChainBefore(actions, i) && Positions(actions)[i].days == -1
    ensures CalculateActionDeadline(actions[i], Some(ChainBefore(actions, i))).Some? ==>
              ChainBefore(actions, i + 1) == Positions(actions)[i].days
  {
    PositionAt(actions, i);
  }

  // ---- Journey length ----

  function Days(ps: seq<TimelinePosition>): (r: seq<int>)
    ensures |r| == |ps| && forall i :: 0 <= i < |ps| ==> r[i] == ps[i].days
  {
    if |ps| == 0 then [] else [ps[0].days] + Days(ps[1..])
  }

  /** `Math.max(...s)` on a non-empty list. */
  function MaxOf(s: seq<int>): (m: int)
    requires |s| > 0
    ensures m in s && forall x :: x in s ==> x <= m
  {
    if |s| == 1 then s[0]
    else
      var rest := MaxOf(s[1..]);
      assert forall x :: x in s ==> x == s[0] || x in s[1..];
      if s[0] >= rest then s[0] else rest
  }

  /** `getMaxJourneyDays`: the latest dated position, but at least 90 days. */
  function GetMaxJourneyDays(actions: seq<Action>): (r: int)
    ensures r >= DefaultMaxDays
    ensures forall p :: p in Positions(actions) && p.days >= 0 ==> p.days <= r
    ensures r == DefaultMaxDays || exists p :: p in Positions(actions) && p.days == r
  {
    var ps := Positions(actions);
    var deadlines := Filter(Days(ps), d => d >= 0);
    assert forall p :: p in ps ==> p.days in Days(ps);
    if |deadlines| == 0 then DefaultMaxDays
    else
      var m := MaxOf(deadlines);
      assert m in Days(ps);
      if m >= DefaultMaxDays then m else DefaultMaxDays
  }

  // ---- Markers ----

  function Abs(x: int): int {
    if x < 0 then -x else x
  }

  /** `hasActionNearby`: some dated position lies within `threshold` days of the marker. */
  function HasActionNearby(markerDays: int, positions: seq<TimelinePosition>, threshold: int): (b: bool)
    ensures b <==> exists p :: p in positions && p.days >= 0 && Abs(p.days - markerDays) <= threshold
  {
    if |positions| == 0 then false
    else
      assert forall p :: p in positions ==> p == positions[0] || p in positions[1..];
      (positions[0].days >= 0 && Abs(positions[0].days - markerDays) <= threshold)
      || HasActionNearby(markerDays, positions[1..], threshold)
  }

  /** `isKeyMilestone`: 1 day, 1 week or 3 months. */
  function IsKeyMilestone(days: int): (b: bool)
    ensures b <==> days == 1 || days == 7 || days == 90
  {
    days in KeyMilestones
  }

  /** The standard markers the filter keeps. */
  predicate Relevant(m: TimelineMarker, maxDays: int, positions: seq<TimelinePosition>) {
    m.days <= maxDays && (HasActionNearby(m.days, positions, 3) || IsKeyMilestone(m.days))
  }

  function MarkerDays(m: TimelineMarker): int {
    m.days
  }

  /** The range the markers are chosen in: `maxDays`, unless it is absent or 0. */
  function CalculatedMaxDays(actions: seq<Action>, maxDays: Option<int>): int {
    if Truthy(maxDays) then maxDays.value else GetMaxJourneyDays(actions)
  }

  /** The standard markers within range that are key milestones or near an action, in table order. */
  function RelevantStandardMarkers(actions: seq<Action>, maxDays: Option<int>): (r: seq<TimelineMarker>)
    ensures forall m :: m in r <==>
              m in StandardMarkers && Relevant(m, CalculatedMaxDays(actions, maxDays), Positions(actions))
    ensures SortedByKey(r, MarkerDays)
  {
    var calculatedMaxDays := CalculatedMaxDays(actions, maxDays);
    var positions := Positions(actions);
    StandardMarkersFacts();
    FilterKeepsSorted(StandardMarkers, m => Relevant(m, calculatedMaxDays, positions), MarkerDays);
    Filter(StandardMarkers, m => Relevant(m, calculatedMaxDays, positions))
  }

  /** `calculateTimelineMarkers`: the start marker and the relevant standard markers,
      sorted by day. */
  function CalculateTimelineMarkers(actions: seq<Action>, maxDays: Option<int>): (r: seq<TimelineMarker>)
    ensures |r| == 1 + |RelevantStandardMarkers(actions, maxDays)|
    ensures multiset(r) == multiset([StartMarker] + RelevantStandardMarkers(actions, maxDays))
    ensures SortedByKey(r, MarkerDays)
  {
    SortByKey([StartMarker] + RelevantStandardMarkers(actions, maxDays), MarkerDays)
  }

  lemma {:induction false} FilterKeepsSorted<T>(s: seq<T>, p: T -> bool, key: T -> int)
    requires SortedByKey(s, key)
    ensures SortedByKey(Filter(s, p), key)
  {
    if |s| > 0 {
      assert SortedByKey(s[1..], key);
      FilterKeepsSorted(s[1..], p, key);
      var rest := Filter(s[1..], p);
      assert forall x :: x in rest ==> x in s[1..];
      assert forall x :: x in s[1..] ==> key(s[0]) <= key(x);
    }
  }

  /** The markers are exactly the start marker followed by the relevant standard
      markers in table order: the sort changes nothing. */
  lemma MarkersShape(actions: seq<Action>, maxDays: Option<int>)
    ensures CalculateTimelineMarkers(actions, maxDays) == [StartMarker] + RelevantStandardMarkers(actions, maxDays)
  {
    var relevant := RelevantStandardMarkers(actions, maxDays);
    StandardMarkersFacts();
    ConsSorted(StartMarker, relevant, MarkerDays);
    SortOfSorted([StartMarker] + relevant, MarkerDays);
  }

  /** The table is in increasing day order and every entry is at least a day in. */
  lemma StandardMarkersFacts()
    ensures SortedByKey(StandardMarkers, MarkerDays)
    ensures forall m :: m in StandardMarkers ==> MarkerDays(m) >= 1
  {
  }

  lemma ConsSorted<T>(x: T, s: seq<T>, key: T -> int)
    requires SortedByKey(s, key) && forall y :: y in s ==> key(x) <= key(y)
    ensures SortedByKey([x] + s, key)
  {
    assert forall j :: 1 <= j < |[x] + s| ==> ([x] + s)[j] in s;
  }

  /** The output starts with "Start", is sorted by day, and holds only markers
      within the journey's range. */
  lemma MarkersStartSortedBounded(actions: seq<Action>, maxDays: Option<int>)
    ensures var r := CalculateTimelineMarkers(actions, maxDays);
            var calculatedMaxDays := CalculatedMaxDays(actions, maxDays);
            |r| >= 1 && r[0] == StartMarker
            && SortedByKey(r, MarkerDays)
            && forall i :: 1 <= i < |r| ==> r[i] in StandardMarkers && r[i].days <= calculatedMaxDays
  {
    MarkersShape(actions, maxDays);
    var r := CalculateTimelineMarkers(actions, maxDays);
    assert forall i :: 1 <= i < |r| ==> r[i] in r[1..];
  }

  /** A standard marker is shown exactly when it is within range and is a key
      milestone or has a dated action within 3 days. */
  lemma MarkerIncludedIff(actions: seq<Action>, maxDays: Option<int>, m: TimelineMarker)
    requires m in StandardMarkers
    ensures var calculatedMaxDays := CalculatedMaxDays(actions, maxDays);
            m in CalculateTimelineMarkers(actions, maxDays)
            <==> m.days <= calculatedMaxDays
                 && (IsKeyMilestone(m.days)
                     || HasActionNearby(m.days, Positions(actions), 3))
  {
    var c := CalculatedMaxDays(actions, maxDays);
    var ps := Positions(actions);
    MarkersShape(actions, maxDays);
    StandardMarkersFacts();
    assert MarkerDays(m) >= 1;
    assert m in CalculateTimelineMarkers(actions, maxDays) <==> m in RelevantStandardMarkers(actions, maxDays);
    assert m in RelevantStandardMarkers(actions, maxDays) <==> Relevant(m, c, ps);
  }

  /** Without an explicit range, the 1-day, 1-week and 3-month markers always show. */
  lemma KeyMilestonesShown(actions: seq<Action>)
    ensures StandardMarkers[0] in CalculateTimelineMarkers(actions, None)
    ensures StandardMarkers[1] in CalculateTimelineMarkers(actions, None)
    ensures StandardMarkers[5] in CalculateTimelineMarkers(actions, None)
  {
    MarkerIncludedIff(actions, None, StandardMarkers[0]);
    MarkerIncludedIff(actions, None, StandardMarkers[1]);
    MarkerIncludedIff(actions, None, StandardMarkers[5]);
  }
}
