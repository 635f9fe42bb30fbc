/** The builder's timeline list (src/components/builder/TimelineView.tsx):
    dated actions grouped into buckets that share a rounded time label, the
    buckets ordered by their earliest day, and the undated actions listed apart. */
module TimelineView {
  import opened Types
  import opened Strings
  import Seqs
  import TU = TimelineUtils
  import AL = ActionLibrary
  import TRS = TimeRangeSelector
  import CU = ChecklistUtils

  datatype LabelUnit = DayUnit | WeekUnit | MonthUnit | YearUnit

  /** What a label says: "Start", or a count of a unit. */
  datatype TimelineLabel = StartLabel | Counted(n: int, unit: LabelUnit)

  /** The decision inside `formatTimelineLabel`. */
  function ClassifyLabel(days: int): (l: TimelineLabel)
    ensures days == 0 <==> l == StartLabel
    ensures days != 0 && days < 7 ==> l == Counted(days, DayUnit)
    ensures 7 <= days < 30 ==> l == Counted(TRS.RoundDiv(days, 7), WeekUnit)
    ensures 30 <= days < 365 ==> l == Counted(TRS.RoundDiv(days, 30), MonthUnit)
    ensures 365 <= days ==> l == Counted(TRS.RoundDiv(days, 365), YearUnit)
  {
    if days == 0 then StartLabel
    else if days < 7 then Counted(days, DayUnit)
    else if days < 30 then Counted(TRS.RoundDiv(days, 7), WeekUnit)
    else if days < 365 then Counted(TRS.RoundDiv(days, 30), MonthUnit)
    else Counted(TRS.RoundDiv(days, 365), YearUnit)
  }

  /** Weeks run from 1 to 4, months from 1 to 12 and years from 1 up, so no label
      ever reads "0 Weeks" or "13 Months". */
  lemma LabelCountsInRange(days: int)
    requires days > 0
    ensures var l := ClassifyLabel(days);
            l.Counted? && l.n >= 1
            && (l.unit == DayUnit ==> l.n <= 6)
            && (l.unit == WeekUnit ==> l.n <= 4)
            && (l.unit == MonthUnit ==> l.n <= 12)
  {
  }

  function UnitWord(n: int, u: LabelUnit): (w: string)
    ensures |w| > 0 && !IsDigit(w[0])
  {
    match u
    case DayUnit => if n == 1 then "Day" else "Days"
    case WeekUnit => if n == 1 then "Week" else "Weeks"
    case MonthUnit => if n == 1 then "Month" else "Months"
    case YearUnit => if n == 1 then "Year" else "Years"
  }

  function RenderLabel(l: TimelineLabel): string {
    match l
    case StartLabel => "Start"
    case Counted(n, u) => IntToString(n) + " " + UnitWord(n, u)
  }

  /** `formatTimelineLabel`. */
  function FormatTimelineLabel(days: int): (r: string)
    ensures days == 0 <==> r == "Start"
    ensures 0 < days < 7 ==> r == NatToString(days) + " " + (if days == 1 then "Day" else "Days")
    ensures days >= 7 ==> var l := ClassifyLabel(days);
              r == NatToString(l.n) + " " + UnitWord(l.n, l.unit) && l.unit != DayUnit
  {
    var l := ClassifyLabel(days);
    assert l.Counted? ==> RenderLabel(l)[0] == IntToString(l.n)[0] && IntToString(l.n)[0] != 'S';
    RenderLabel(l)
  }

  /** The unit word fixes the unit, given the count. */
  lemma UnitWordInjective(n1: int, u1: LabelUnit, n2: int, u2: LabelUnit)
    requires n1 == n2 && UnitWord(n1, u1) == UnitWord(n2, u2)
    ensures u1 == u2
  {
    var w := UnitWord(n1, u1);
    assert w[0] == UnitWord(n2, u2)[0];
    if u1 == MonthUnit || u2 == MonthUnit {
      assert w[1] == UnitWord(n2, u2)[1];
    }
  }

  lemma CountedParts(n: nat, u: LabelUnit)
    ensures RenderLabel(Counted(n, u)) == NatToString(n) + (" " + UnitWord(n, u))
  {
  }

  /** Two days share a label exactly when they round to the same count of the
      same unit: the label text loses nothing of that pair. */
  lemma LabelIff(d1: int, d2: int)
    requires d1 >= 0 && d2 >= 0
    ensures FormatTimelineLabel(d1) == FormatTimelineLabel(d2) <==> ClassifyLabel(d1) == ClassifyLabel(d2)
  {
    var l1, l2 := ClassifyLabel(d1), ClassifyLabel(d2);
    if FormatTimelineLabel(d1) == FormatTimelineLabel(d2) {
      if l1.Counted? && l2.Counted? {
        LabelCountsInRange(d1);
        LabelCountsInRange(d2);
        CountedParts(l1.n, l1.unit);
        CountedParts(l2.n, l2.unit);
        CU.NumeralSplitUnique(NatToString(l1.n), " " + UnitWord(l1.n, l1.unit),
                              NatToString(l2.n), " " + UnitWord(l2.n, l2.unit));
        if l1.n != l2.n {
          NatToStringInjective(l1.n, l2.n);
        }
        assert (" " + UnitWord(l1.n, l1.unit))[1..] == UnitWord(l1.n, l1.unit);
        assert (" " + UnitWord(l2.n, l2.unit))[1..] == UnitWord(l2.n, l2.unit);
        UnitWordInjective(l1.n, l1.unit, l2.n, l2.unit);
      }
    }
  }

  /** Four weeks and thirty days fall in different buckets: 28 days rounds to
      "4 Weeks" and 30 days is "1 Month". */
  lemma FourWeeksIsNotAMonth()
    ensures ClassifyLabel(28) == Counted(4, WeekUnit)
    ensures ClassifyLabel(30) == Counted(1, MonthUnit)
    ensures FormatTimelineLabel(28) != FormatTimelineLabel(30)
  {
    var w, m := ClassifyLabel(28), ClassifyLabel(30);
    assert w.unit != m.unit;
    LabelIff(28, 30);
  }

  // ---- Buckets ----

  datatype BucketItem = BucketItem(actionId: string, action: Action, title: string, isEntryAction: bool)

  datatype TimeBucket = TimeBucket(labelText: string, days: int, actions: seq<BucketItem>)

  function BucketDays(b: TimeBucket): int {
    b.days
  }

  /** The library title, or the type id when the library has no (non-empty) title. */
  function Title(a: Action): string {
    match AL.GetActionLibraryItem(a.actionTypeId)
    case Some(item) => if item.title != "" then item.title else a.actionTypeId
    case None => a.actionTypeId
  }

  /** The entry for dated position `i`; only a first dated action at day 0 is the entry action. */
  function ItemAt(ps: seq<TU.TimelinePosition>, i: nat): BucketItem
    requires i < |ps|
  {
    BucketItem(ps[i].actionId, ps[i].action, Title(ps[i].action), i == 0 && ps[i].days == 0)
  }

  function Dated(ps: seq<TU.TimelinePosition>): (r: seq<TU.TimelinePosition>)
    ensures forall p :: p in r <==> p in ps && p.days >= 0
  {
    Seqs.Filter(ps, (p: TU.TimelinePosition) => p.days >= 0)
  }

  function Undated(ps: seq<TU.TimelinePosition>): (r: seq<TU.TimelinePosition>)
    ensures forall p :: p in r <==> p in ps && p.days < 0
  {
    Seqs.Filter(ps, (p: TU.TimelinePosition) => p.days < 0)
  }

  /** Both filters work position by position and keep the order of what they
      keep: each splits over concatenation, and a single position goes to
      exactly one of them, by the sign of its day. */
  lemma DatedUndatedInOrder(a: seq<TU.TimelinePosition>, b: seq<TU.TimelinePosition>, x: TU.TimelinePosition)
    ensures Dated(a + b) == Dated(a) + Dated(b)
    ensures Undated(a + b) == Undated(a) + Undated(b)
    ensures Dated([x]) == (if x.days >= 0 then [x] else [])
    ensures Undated([x]) == (if x.days < 0 then [x] else [])
  {
    var dated := (p: TU.TimelinePosition) => p.days >= 0;
    var undated := (p: TU.TimelinePosition) => p.days < 0;
    Seqs.FilterAppend(a, b, dated);
    Seqs.FilterAppend(a, b, undated);
    Seqs.FilterSingleton(x, dated);
    Seqs.FilterSingleton(x, undated);
  }

  /** The bucket whose label is `text`, as the first index, or -1. */
  function IndexOfLabel(bs: seq<TimeBucket>, text: string): (k: int)
    ensures -1 <= k < |bs|
    ensures k == -1 <==> forall i :: 0 <= i < |bs| ==> bs[i].labelText != text
    ensures k >= 0 ==> bs[k].labelText == text
  {
    if |bs| == 0 then -1
    else if bs[0].labelText == text then 0
    else
      var k := IndexOfLabel(bs[1..], text);
      if k == -1 then -1 else k + 1
  }

  /** One step of the `forEach`: open the label's bucket if needed, push the
      item, and lower the bucket's day to the item's when it is earlier. */
  function AddToBuckets(bs: seq<TimeBucket>, text: string, days: int, item: BucketItem): (r: seq<TimeBucket>)
    ensures var k := IndexOfLabel(bs, text);
            if k < 0 then r == bs + [TimeBucket(text, days, [item])]
            else |r| == |bs|
                 && r[k] == bs[k].(actions := bs[k].actions + [item], days := if days < bs[k].days then days else bs[k].days)
                 && forall i :: 0 <= i < |bs| && i != k ==> r[i] == bs[i]
  {
    var k := IndexOfLabel(bs, text);
    if k < 0 then bs + [TimeBucket(text, days, [item])]
    else bs[k := bs[k].(actions := bs[k].actions + [item], days := if days < bs[k].days then days else bs[k].days)]
  }

  /** The buckets of `ps` under a labelling of days, in the order their labels
      first appear. The facts below hold for every labelling; the view uses
      `FormatTimelineLabel`. */
  function GroupBy(ps: seq<TU.TimelinePosition>, labelOf: int -> string): (bs: seq<TimeBucket>)
    decreases |ps|
  {
    if |ps| == 0 then []
    else AddToBuckets(GroupBy(ps[..|ps| - 1], labelOf), labelOf(ps[|ps| - 1].days), ps[|ps| - 1].days, ItemAt(ps, |ps| - 1))
  }

  function BucketsOf(ps: seq<TU.TimelinePosition>): seq<TimeBucket> {
    GroupBy(ps, FormatTimelineLabel)
  }

  /** The items of the positions whose label is `text`, in input order. */
  function ItemsWithLabel(ps: seq<TU.TimelinePosition>, labelOf: int -> string, text: string): seq<BucketItem>
    decreases |ps|
  {
    if |ps| == 0 then []
    else ItemsWithLabel(ps[..|ps| - 1], labelOf, text)
         + (if labelOf(ps[|ps| - 1].days) == text then [ItemAt(ps, |ps| - 1)] else [])
  }

  predicate LabelsDistinct(bs: seq<TimeBucket>) {
    forall i, j :: 0 <= i < j < |bs| ==> bs[i].labelText != bs[j].labelText
  }

  /** No two buckets share a label. */
  lemma {:induction false} LabelsAreDistinct(ps: seq<TU.TimelinePosition>, labelOf: int -> string)
    ensures LabelsDistinct(GroupBy(ps, labelOf))
    decreases |ps|
  {
    if |ps| > 0 {
      LabelsAreDistinct(ps[..|ps| - 1], labelOf);
    }
  }

  /** There are at most as many buckets as positions, at least one when there is
      a position, and no bucket is empty. */
  lemma {:induction false} GroupBySizes(ps: seq<TU.TimelinePosition>, labelOf: int -> string)
    ensures var bs := GroupBy(ps, labelOf);
            |bs| <= |ps| && (|ps| > 0 ==> |bs| > 0)
            && forall i :: 0 <= i < |bs| ==> |bs[i].actions| > 0
    decreases |ps|
  {
    if |ps| > 0 {
      GroupBySizes(ps[..|ps| - 1], labelOf);
    }
  }

  /** Position `k`'s label has a bucket. */
  lemma {:induction false} LabelHasBucket(ps: seq<TU.TimelinePosition>, labelOf: int -> string, k: nat)
    requires k < |ps|
    ensures IndexOfLabel(GroupBy(ps, labelOf), labelOf(ps[k].days)) >= 0
    decreases |ps|
  {
    var n := |ps| - 1;
    var front := ps[..n];
    var prev := GroupBy(front, labelOf);
    var bs := GroupBy(ps, labelOf);
    var text := labelOf(ps[k].days);
    if k < n {
      assert ps[k] == front[k];
      LabelHasBucket(front, labelOf, k);
      var m := IndexOfLabel(prev, text);
      assert bs[m].labelText == text;
    } else if IndexOfLabel(prev, text) < 0 {
      assert bs[|prev|].labelText == text;
    } else {
      assert bs[IndexOfLabel(prev, text)].labelText == text;
    }
  }

  /** Every position's label has a bucket. */
  lemma EveryLabelHasBucket(ps: seq<TU.TimelinePosition>, labelOf: int -> string)
    ensures forall k :: 0 <= k < |ps| ==> IndexOfLabel(GroupBy(ps, labelOf), labelOf(ps[k].days)) >= 0
  {
    forall k | 0 <= k < |ps|
      ensures IndexOfLabel(GroupBy(ps, labelOf), labelOf(ps[k].days)) >= 0
    {
      LabelHasBucket(ps, labelOf, k);
    }
  }

  /** Some position of `ps` has label `text`. */
  predicate SomePositionLabelled(ps: seq<TU.TimelinePosition>, labelOf: int -> string, text: string) {
    exists k :: 0 <= k < |ps| && labelOf(ps[k].days) == text
  }

  /** Bucket `i`'s label is the label of some position. */
  lemma {:induction false} BucketHasPosition(ps: seq<TU.TimelinePosition>, labelOf: int -> string, i: nat)
    requires i < |GroupBy(ps, labelOf)|
    ensures SomePositionLabelled(ps, labelOf, GroupBy(ps, labelOf)[i].labelText)
    decreases |ps|
  {
    var n := |ps| - 1;
    var front := ps[..n];
    var prev := GroupBy(front, labelOf);
    var bs := GroupBy(ps, labelOf);
    if i < |prev| {
      BucketHasPosition(front, labelOf, i);
      var k :| 0 <= k < |front| && labelOf(front[k].days) == prev[i].labelText;
      assert ps[k] == front[k];
      assert bs[i].labelText == prev[i].labelText;
    } else {
      assert labelOf(ps[n].days) == bs[i].labelText;
    }
  }

  /** Every bucket's label is the label of some position. */
  lemma EveryBucketHasPosition(ps: seq<TU.TimelinePosition>, labelOf: int -> string)
    ensures var bs := GroupBy(ps, labelOf);
            forall i :: 0 <= i < |bs| ==> SomePositionLabelled(ps, labelOf, bs[i].labelText)
  {
    forall i | 0 <= i < |GroupBy(ps, labelOf)|
      ensures SomePositionLabelled(ps, labelOf, GroupBy(ps, labelOf)[i].labelText)
    {
      BucketHasPosition(ps, labelOf, i);
    }
  }

  /** A label that no earlier position has opens a new bucket. */
  lemma NewLabelNotInFront(ps: seq<TU.TimelinePosition>, labelOf: int -> string, text: string)
    requires IndexOfLabel(GroupBy(ps, labelOf), text) < 0
    ensures forall j :: 0 <= j < |ps| ==> labelOf(ps[j].days) != text
  {
    EveryLabelHasBucket(ps, labelOf);
  }

  /** When no position has label `text`, no item has it. */
  lemma {:induction false} NoItemsWithoutLabel(ps: seq<TU.TimelinePosition>, labelOf: int -> string, text: string)
    requires forall k :: 0 <= k < |ps| ==> labelOf(ps[k].days) != text
    ensures ItemsWithLabel(ps, labelOf, text) == []
    decreases |ps|
  {
    if |ps| > 0 {
      NoItemsWithoutLabel(ps[..|ps| - 1], labelOf, text);
    }
  }

  /** Bucket `i` holds exactly the items with its label, in input order. */
  lemma {:induction false} BucketMember(ps: seq<TU.TimelinePosition>, labelOf: int -> string, i: nat)
    requires i < |GroupBy(ps, labelOf)|
    ensures GroupBy(ps, labelOf)[i].actions == ItemsWithLabel(ps, labelOf, GroupBy(ps, labelOf)[i].labelText)
    decreases |ps|
  {
    var n := |ps| - 1;
    var front := ps[..n];
    var prev := GroupBy(front, labelOf);
    var bs := GroupBy(ps, labelOf);
    var text := labelOf(ps[n].days);
    var k := IndexOfLabel(prev, text);
    if i < |prev| {
      BucketMember(front, labelOf, i);
      LabelsAreDistinct(front, labelOf);
      if i != k {
        assert bs[i] == prev[i] && prev[i].labelText != text;
      }
    } else {
      NewLabelNotInFront(front, labelOf, text);
      NoItemsWithoutLabel(front, labelOf, text);
    }
  }

  /** Each bucket holds exactly the items with its label, in input order. */
  lemma BucketMembers(ps: seq<TU.TimelinePosition>, labelOf: int -> string)
    ensures var bs := GroupBy(ps, labelOf);
            forall i :: 0 <= i < |bs| ==> bs[i].actions == ItemsWithLabel(ps, labelOf, bs[i].labelText)
  {
    forall i | 0 <= i < |GroupBy(ps, labelOf)|
      ensures GroupBy(ps, labelOf)[i].actions == ItemsWithLabel(ps, labelOf, GroupBy(ps, labelOf)[i].labelText)
    {
      BucketMember(ps, labelOf, i);
    }
  }

  /** `d` is at most the day of every position labelled `text`. */
  predicate BelowLabelled(ps: seq<TU.TimelinePosition>, labelOf: int -> string, text: string, d: int) {
    forall k :: 0 <= k < |ps| && labelOf(ps[k].days) == text ==> d <= ps[k].days
  }

  /** Some position labelled `text` has day `d`. */
  predicate AttainedBy(ps: seq<TU.TimelinePosition>, labelOf: int -> string, text: string, d: int) {
    exists k :: 0 <= k < |ps| && labelOf(ps[k].days) == text && ps[k].days == d
  }

  /** Bucket `i`'s day is the day of one of its positions ... */
  lemma {:induction false} BucketDayAttainedAt(ps: seq<TU.TimelinePosition>, labelOf: int -> string, i: nat)
    requires i < |GroupBy(ps, labelOf)|
    ensures AttainedBy(ps, labelOf, GroupBy(ps, labelOf)[i].labelText, GroupBy(ps, labelOf)[i].days)
    decreases |ps|
  {
    var n := |ps| - 1;
    var front := ps[..n];
    var prev := GroupBy(front, labelOf);
    var bs := GroupBy(ps, labelOf);
    var k := IndexOfLabel(prev, labelOf(ps[n].days));
    if i < |prev| && !(i == k && ps[n].days < prev[i].days) {
      BucketDayAttainedAt(front, labelOf, i);
      var w :| 0 <= w < |front| && labelOf(front[w].days) == prev[i].labelText && front[w].days == prev[i].days;
      assert ps[w] == front[w];
      assert bs[i].labelText == prev[i].labelText && bs[i].days == prev[i].days;
    } else {
      assert labelOf(ps[n].days) == bs[i].labelText && ps[n].days == bs[i].days;
    }
  }

  /** A bucket's day is the day of one of its positions ... */
  lemma BucketDayAttained(ps: seq<TU.TimelinePosition>, labelOf: int -> string)
    ensures var bs := GroupBy(ps, labelOf);
            forall i :: 0 <= i < |bs| ==> AttainedBy(ps, labelOf, bs[i].labelText, bs[i].days)
  {
    forall i | 0 <= i < |GroupBy(ps, labelOf)|
      ensures AttainedBy(ps, labelOf, GroupBy(ps, labelOf)[i].labelText, GroupBy(ps, labelOf)[i].days)
    {
      BucketDayAttainedAt(ps, labelOf, i);
    }
  }

  /** ... and no position with bucket `i`'s label is earlier. */
  lemma {:induction false} BucketDayMinimalAt(ps: seq<TU.TimelinePosition>, labelOf: int -> string, i: nat)
    requires i < |GroupBy(ps, labelOf)|
    ensures BelowLabelled(ps, labelOf, GroupBy(ps, labelOf)[i].labelText, GroupBy(ps, labelOf)[i].days)
    decreases |ps|
  {
    var n := |ps| - 1;
    var front := ps[..n];
    var prev := GroupBy(front, labelOf);
    var bs := GroupBy(ps, labelOf);
    var text := labelOf(ps[n].days);
    var k := IndexOfLabel(prev, text);
    assert forall j :: 0 <= j < n ==> ps[j] == front[j];
    if i == |prev| {
      NewLabelNotInFront(front, labelOf, text);
    } else {
      BucketDayMinimalAt(front, labelOf, i);
      LabelsAreDistinct(front, labelOf);
      assert i != k ==> bs[i] == prev[i] && prev[i].labelText != text;
    }
  }

  /** ... and no position with its label is earlier. */
  lemma BucketDayMinimal(ps: seq<TU.TimelinePosition>, labelOf: int -> string)
    ensures var bs := GroupBy(ps, labelOf);
            forall i :: 0 <= i < |bs| ==> BelowLabelled(ps, labelOf, bs[i].labelText, bs[i].days)
  {
    forall i | 0 <= i < |GroupBy(ps, labelOf)|
      ensures BelowLabelled(ps, labelOf, GroupBy(ps, labelOf)[i].labelText, GroupBy(ps, labelOf)[i].days)
    {
      BucketDayMinimalAt(ps, labelOf, i);
    }
  }

  /** The displayed buckets: the bucket list sorted by day, ties in first-appearance order. */
  function SortedBuckets(ps: seq<TU.TimelinePosition>): (r: seq<TimeBucket>)
    ensures Seqs.SortedByKey(r, BucketDays)
    ensures multiset(r) == multiset(BucketsOf(ps))
  {
    Seqs.SortByKey(BucketsOf(ps), BucketDays)
  }

  /** Each displayed bucket, under any labelling of days, holds exactly the actions whose label is its label,
      and shows the earliest day among them. */
  lemma DisplayedBucket(ps: seq<TU.TimelinePosition>, labelOf: int -> string, b: TimeBucket)
    requires b in Seqs.SortByKey(GroupBy(ps, labelOf), BucketDays)
    ensures b.actions == ItemsWithLabel(ps, labelOf, b.labelText)
    ensures AttainedBy(ps, labelOf, b.labelText, b.days)
    ensures BelowLabelled(ps, labelOf, b.labelText, b.days)
  {
    var bs := GroupBy(ps, labelOf);
    assert b in multiset(Seqs.SortByKey(bs, BucketDays));
    assert b in bs;
    var i :| 0 <= i < |bs| && bs[i] == b;
    BucketMembers(ps, labelOf);
    BucketDayAttained(ps, labelOf);
    BucketDayMinimal(ps, labelOf);
  }

  /** The `forEach` over the dated positions. */
  method FillBuckets(dated: seq<TU.TimelinePosition>) returns (bs: seq<TimeBucket>)
    ensures bs == BucketsOf(dated)
  {
    bs := [];
    var index := 0;
    while index < |dated|
      invariant 0 <= index <= |dated|
      invariant bs == GroupBy(dated[..index], FormatTimelineLabel)
    {
      var prefix := dated[..index + 1];
      assert prefix[..index] == dated[..index];
      assert ItemAt(prefix, index) == ItemAt(dated, index);
      bs := AddToBuckets(bs, FormatTimelineLabel(dated[index].days), dated[index].days, ItemAt(dated, index));
      index := index + 1;
    }
    assert dated[..index] == dated;
  }

  /** The `useMemo` body: buckets of the dated positions, sorted by day, and the
      undated positions in input order. */
  method ComputeBuckets(actions: seq<Action>) returns (buckets: seq<TimeBucket>, withoutDeadlines: seq<TU.TimelinePosition>)
    ensures buckets == SortedBuckets(Dated(TU.Positions(actions)))
    ensures withoutDeadlines == Undated(TU.Positions(actions))
  {
    if |actions| == 0 {
      return [], [];
    }
    var positions := TU.CalculateTimelinePositions(actions);
    var withDeadlines := Dated(positions);
    withoutDeadlines := Undated(positions);
    var bs := FillBuckets(withDeadlines);
    buckets := Seqs.SortByKey(bs, BucketDays);
  }
}
