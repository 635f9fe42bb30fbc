/** The time-range editor of the builder (src/components/builder/TimeRangeSelector.tsx).
    Durations and offsets are stored in days and shown in the chosen unit; the
    conversions use JavaScript's `Math.round`, which rounds halves up. All values
    that reach these functions are whole numbers (`parseInt` or an earlier
    conversion), so they are `int`s here. */
module TimeRangeSelector {
  import opened Types

  /** `Math.round(n / m)` for a whole `n` and a positive whole `m`: the floor of
      `n / m + 1/2`. Dafny's `/` with a positive divisor is the floor. */
  function RoundDiv(n: int, m: int): int
    requires m > 0
  {
    (2 * n + m) / (2 * m)
  }

  /** `RoundDiv` is the nearest whole number, halves going up. */
  lemma RoundDivNearest(n: int, m: int)
    requires m > 0
    ensures 2 * m * RoundDiv(n, m) <= 2 * n + m < 2 * m * RoundDiv(n, m) + 2 * m
  {
  }

  /** For weeks and months the rounding is `(d + 3) div 7` and `(d + 15) div 30`. */
  lemma RoundDivWeeksMonths(d: int)
    ensures RoundDiv(d, 7) == (d + 3) / 7
    ensures RoundDiv(d, 30) == (d + 15) / 30
  {
    var w := (d + 3) / 7;
    assert 7 * w <= d + 3 < 7 * w + 7;
    assert 14 * w <= 2 * d + 7 < 14 * w + 14;
    var mo := (d + 15) / 30;
    assert 30 * mo <= d + 15 < 30 * mo + 30;
    assert 60 * mo <= 2 * d + 30 < 60 * mo + 60;
  }

  /** Days per unit. */
  function UnitDays(u: TimeUnit): (r: int)
    ensures r > 0
  {
    match u
    case Days => 1
    case Weeks => 7
    case Months => 30
  }

  /** `unit || 'DAYS'`. */
  function UnitOrDays(u: Option<TimeUnit>): TimeUnit {
    GetOr(u, Days)
  }

  /** `daysToDisplayValue`. */
  function DaysToDisplayValue(days: Option<int>, unit: Option<TimeUnit>): (r: Option<int>)
    ensures !Truthy(days) ==> r == None
    ensures Truthy(days) && UnitOrDays(unit) == Days ==> r == days
    ensures Truthy(days) ==> r == Some(RoundDiv(days.value, UnitDays(UnitOrDays(unit))))
  {
    if !Truthy(days) then None
    else if unit.None? || unit.value == Days then days
    else if unit.value == Weeks then Some(RoundDiv(days.value, 7))
    else Some(RoundDiv(days.value, 30))
  }

  /** `displayValueToDays`. */
  function DisplayValueToDays(value: Option<int>, unit: Option<TimeUnit>): (r: Option<int>)
    ensures !Truthy(value) ==> r == None
    ensures Truthy(value) ==> r == Some(value.value * UnitDays(UnitOrDays(unit)))
  {
    if !Truthy(value) then None
    else if unit.None? || unit.value == Days then value
    else if unit.value == Weeks then Some(value.value * 7)
    else Some(value.value * 30)
  }

  /** Entering a value and showing it again gives the value back, in every unit. */
  lemma DisplayRoundTrip(v: int, u: Option<TimeUnit>)
    requires v != 0
    ensures DaysToDisplayValue(DisplayValueToDays(Some(v), u), u) == Some(v)
  {
    var m := UnitDays(UnitOrDays(u));
    assert (2 * (v * m) + m) / (2 * m) == v by {
      assert 2 * (v * m) + m == (2 * m) * v + m;
    }
  }

  /** Showing a stored day count and converting it back lands on the nearest
      multiple of the unit, or on nothing when that multiple is 0. */
  lemma StoredRoundTrip(d: int, u: Option<TimeUnit>)
    requires d != 0
    ensures var m := UnitDays(UnitOrDays(u));
            var back := DisplayValueToDays(DaysToDisplayValue(Some(d), u), u);
            (back.None? <==> RoundDiv(d, m) == 0)
            && (back.Some? ==> back.value % m == 0 && 2 * (back.value - d) <= m && 2 * (d - back.value) < m)
  {
    var m := UnitDays(UnitOrDays(u));
    RoundDivNearest(d, m);
    var r := RoundDiv(d, m);
    assert (r * m) % m == 0;
  }

  /** The stored-value direction is lossy: 10 days in weeks shows 1 week, which is 7 days. */
  lemma TenDaysInWeeks()
    ensures DaysToDisplayValue(Some(10), Some(Weeks)) == Some(1)
    ensures DisplayValueToDays(Some(1), Some(Weeks)) == Some(7)
  {
  }

  /** `handleTypeChange`: the fields of the new kind are kept or defaulted, and
      the fields of the other kinds are dropped. */
  function HandleTypeChange(value: TimeRange, kind: TimeRangeType): (r: TimeRange)
    ensures r.kind == kind
    ensures kind == NoDeadline ==> r == NoTimeRange
    ensures kind == Absolute ==>
              r.durationDays == Some(OrElse(value.durationDays, 7)) && r.durationUnit == Some(UnitOrDays(value.durationUnit))
              && r.offsetDays.None? && r.offsetUnit.None?
    ensures kind == WithPrevious ==>
              r.offsetDays == Some(OrElse(value.offsetDays, 1)) && r.offsetUnit == Some(UnitOrDays(value.offsetUnit))
              && r.durationDays.None? && r.durationUnit.None?
  {
    match kind
    case NoDeadline => TimeRange(NoDeadline, None, None, None, None)
    case Absolute => TimeRange(Absolute, Some(OrElse(value.durationDays, 7)), Some(UnitOrDays(value.durationUnit)), None, None)
    case WithPrevious => TimeRange(WithPrevious, None, None, Some(OrElse(value.offsetDays, 1)), Some(UnitOrDays(value.offsetUnit)))
  }

  /** Choosing the same kind twice is the same as choosing it once. */
  lemma TypeChangeIdempotent(value: TimeRange, kind: TimeRangeType)
    ensures HandleTypeChange(HandleTypeChange(value, kind), kind) == HandleTypeChange(value, kind)
  {
  }

  /** Choosing a kind never yields a zero or missing amount for that kind, so a
      freshly chosen range shows a value. */
  lemma TypeChangeHasAmount(value: TimeRange, kind: TimeRangeType)
    ensures kind == Absolute ==> Truthy(HandleTypeChange(value, kind).durationDays)
    ensures kind == WithPrevious ==> Truthy(HandleTypeChange(value, kind).offsetDays)
  {
  }

  /** Going to "with previous" and back forgets the duration: it comes back as 7 days. */
  lemma TypeSwitchForgetsDuration(value: TimeRange)
    ensures HandleTypeChange(HandleTypeChange(value, WithPrevious), Absolute).durationDays == Some(7)
    ensures HandleTypeChange(HandleTypeChange(value, WithPrevious), Absolute).durationUnit == Some(Days)
  {
  }

  /** `handleDurationChange`. */
  function HandleDurationChange(value: TimeRange, newValue: Option<int>, unit: TimeUnit): (r: TimeRange)
    ensures r.durationDays == DisplayValueToDays(newValue, Some(unit)) && r.durationUnit == Some(unit)
    ensures r.kind == value.kind && r.offsetDays == value.offsetDays && r.offsetUnit == value.offsetUnit
  {
    value.(durationDays := DisplayValueToDays(newValue, Some(unit)), durationUnit := Some(unit))
  }

  /** `handleOffsetChange`. */
  function HandleOffsetChange(value: TimeRange, newValue: Option<int>, unit: TimeUnit): (r: TimeRange)
    ensures r.offsetDays == DisplayValueToDays(newValue, Some(unit)) && r.offsetUnit == Some(unit)
    ensures r.kind == value.kind && r.durationDays == value.durationDays && r.durationUnit == value.durationUnit
  {
    value.(offsetDays := DisplayValueToDays(newValue, Some(unit)), offsetUnit := Some(unit))
  }

  /** What the number field hands over: nothing typed, a `parseInt` result, or `NaN`. */
  datatype Entry = Empty | Parsed(n: int) | NotANumber

  /** The duration field's change handler: a positive number is taken, clearing
      the field clears the duration, anything else is ignored (`None`). */
  function DurationInput(value: TimeRange, e: Entry): (r: Option<TimeRange>)
    ensures r.Some? <==> e.Empty? || (e.Parsed? && e.n > 0)
    ensures e.Parsed? && e.n > 0 ==> r == Some(HandleDurationChange(value, Some(e.n), UnitOrDays(value.durationUnit)))
    ensures e.Empty? ==> r == Some(HandleDurationChange(value, None, UnitOrDays(value.durationUnit)))
  {
    match e
    case Parsed(n) => if n > 0 then Some(HandleDurationChange(value, Some(n), UnitOrDays(value.durationUnit))) else None
    case Empty => Some(HandleDurationChange(value, None, UnitOrDays(value.durationUnit)))
    case NotANumber => None
  }

  /** The offset field's change handler, in the same way. */
  function OffsetInput(value: TimeRange, e: Entry): (r: Option<TimeRange>)
    ensures r.Some? <==> e.Empty? || (e.Parsed? && e.n > 0)
    ensures e.Parsed? && e.n > 0 ==> r == Some(HandleOffsetChange(value, Some(e.n), UnitOrDays(value.offsetUnit)))
    ensures e.Empty? ==> r == Some(HandleOffsetChange(value, None, UnitOrDays(value.offsetUnit)))
  {
    match e
    case Parsed(n) => if n > 0 then Some(HandleOffsetChange(value, Some(n), UnitOrDays(value.offsetUnit))) else None
    case Empty => Some(HandleOffsetChange(value, None, UnitOrDays(value.offsetUnit)))
    case NotANumber => None
  }

  /** Typed entries only ever store a positive whole number of days, or nothing. */
  lemma TypedDurationPositive(value: TimeRange, e: Entry)
    requires DurationInput(value, e).Some?
    ensures var d := DurationInput(value, e).value.durationDays;
            d.None? || d.value > 0
  {
  }

  /** The duration's unit selector: the displayed number stays and is reread in the
      new unit, so a shown value survives the switch. */
  function DurationUnitSelect(value: TimeRange, unit: TimeUnit): (r: TimeRange)
    ensures r.durationUnit == Some(unit)
    ensures r.kind == value.kind && r.offsetDays == value.offsetDays && r.offsetUnit == value.offsetUnit
    ensures !Truthy(value.durationDays) ==> r.durationDays.None?
  {
    HandleDurationChange(value, DaysToDisplayValue(value.durationDays, Some(UnitOrDays(value.durationUnit))), unit)
  }

  /** The offset's unit selector. */
  function OffsetUnitSelect(value: TimeRange, unit: TimeUnit): (r: TimeRange)
    ensures r.offsetUnit == Some(unit)
    ensures r.kind == value.kind && r.durationDays == value.durationDays && r.durationUnit == value.durationUnit
    ensures !Truthy(value.offsetDays) ==> r.offsetDays.None?
  {
    HandleOffsetChange(value, DaysToDisplayValue(value.offsetDays, Some(UnitOrDays(value.offsetUnit))), unit)
  }

  /** After a unit switch the field shows the same number as before, in days
      the new unit's multiple of it; a zero or empty display clears the amount. */
  lemma UnitSwitchKeepsDisplay(value: TimeRange, unit: TimeUnit)
    ensures var shown := DaysToDisplayValue(value.durationDays, Some(UnitOrDays(value.durationUnit)));
            var r := DurationUnitSelect(value, unit);
            (Truthy(shown) ==> DaysToDisplayValue(r.durationDays, r.durationUnit) == shown
                               && r.durationDays == Some(shown.value * UnitDays(unit)))
            && (!Truthy(shown) ==> r.durationDays.None?)
  {
    var shown := DaysToDisplayValue(value.durationDays, Some(UnitOrDays(value.durationUnit)));
    if Truthy(shown) {
      DisplayRoundTrip(shown.value, Some(unit));
    }
  }

  /** The same for the offset. */
  lemma OffsetUnitSwitchKeepsDisplay(value: TimeRange, unit: TimeUnit)
    ensures var shown := DaysToDisplayValue(value.offsetDays, Some(UnitOrDays(value.offsetUnit)));
            var r := OffsetUnitSelect(value, unit);
            (Truthy(shown) ==> DaysToDisplayValue(r.offsetDays, r.offsetUnit) == shown
                               && r.offsetDays == Some(shown.value * UnitDays(unit)))
            && (!Truthy(shown) ==> r.offsetDays.None?)
  {
    var shown := DaysToDisplayValue(value.offsetDays, Some(UnitOrDays(value.offsetUnit)));
    if Truthy(shown) {
      DisplayRoundTrip(shown.value, Some(unit));
    }
  }
}
