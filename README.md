# Journey builder core, modelled in Dafny

This project models the core of the EGYM member-journey builder. A journey is an
ordered list of actions. Each action is a member event (an account created, a
strength test done, ...) on a product. It has a completion mode: one occurrence,
or a counter with a required count. It also carries a time range: no deadline, a
deadline some days after the journey's entry action, or some days after the
previous action.

The model covers:

- the library of action types and their categories;
- deadline and status computation, and the checklist's time-frame and progress texts;
- the event processor that completes actions when a member event arrives;
- the simulator session that replays events against a journey on a simulated clock;
- the in-memory journey store and its edits (add, update, delete, reorder, create);
- the builder's action form, time-range editor and reminder list;
- the builder's timeline (positions, markers, grouping, time buckets);
- the member checklist and the simulator panel's event buttons.

Modules follow the source files one to one:

- `Types`: `src/lib/types.ts`
- `ChecklistUtils`, `DeadlineCalculator`, `EventProcessor` (with `reminderTrigger.ts`), `TimelineUtils`, `Grouping` (`utils.ts`), `ActionLibrary`: `src/lib`
- `Simulator`, `JourneyContext`: `src/contexts`
- `ActionForm`, `TimeRangeSelector`, `ReminderList`, `TimelineView`: `src/components/builder`
- `MemberChecklist`, `EventSimulatorPanel`: `src/components/checklist`
- `Seqs` (filter, stable sort) and `Strings` (decimal numerals): helpers

The form of each piece follows the source:

- Pure computations are functions with lemmas.
- Procedures that loop are methods with loop invariants, each proved equal to a specification function.
  Examples: `processEvent`, `calculateTimelinePositions`, the `forEach` loops of the timeline view and the event panel, `getActionsByCategory`.
- State that React components and contexts update becomes a class with a method per handler or effect.
  This covers the simulator session, the journey store and the action form.

Instants are whole milliseconds. `AddDays` adds whole days without time zones.
Optional numbers are `Option<int>`, and JavaScript truthiness of such a number is
`Truthy` (present and non-zero).

## Model

| member | source | states |
|---|---|---|
| Types.OrElse | src/lib/checklistUtils.ts:12-23 | `o \|\| d` on an optional number: the number when it is truthy, otherwise the default |
| Types.WithId | src/contexts/JourneyContext.tsx:178-181 | giving form data an id keeps every configured field and sets the id |
| ChecklistUtils.CalculateDeadline | src/lib/checklistUtils.ts:7-26 | no deadline for NONE; ABSOLUTE is entry plus duration (0 if absent); WITH_PREVIOUS is absent exactly when the previous completion is, otherwise that completion plus the offset |
| ChecklistUtils.AbsoluteIgnoresPrevious | src/lib/checklistUtils.ts:14-17 | an ABSOLUTE deadline always exists and does not depend on the previous action |
| ChecklistUtils.GetActionStatus | src/lib/checklistUtils.ts:33-56 | DONE iff completed or the counter target is met; IN_PROGRESS iff it is not completed and the counter has started below its target; OVERDUE iff neither of these holds and time is strictly past the deadline |
| ChecklistUtils.CompletedIsDone | src/lib/checklistUtils.ts:40 | a completion time makes the status DONE whatever the deadline, time and count |
| ChecklistUtils.CounterInProgressBeatsDeadline | src/lib/checklistUtils.ts:42-48 | a started counter below its target is IN_PROGRESS even after its deadline |
| ChecklistUtils.OverdueIffStrictlyPast | src/lib/checklistUtils.ts:51-53 | without completion or counter progress: OVERDUE iff strictly past the deadline, and NOT_DONE at the deadline itself |
| ChecklistUtils.ClassifyTimeFrame | src/lib/checklistUtils.ts:62-119 | the time-frame case chosen for each range of the day difference: overdue by days, overdue or due today by the hour sign, due in 1-7 days, due in weeks and days (8-30), or a date beyond 30 days |
| ChecklistUtils.FormatTimeFrame | src/lib/checklistUtils.ts:62-76 | the "No deadline" and "Pending previous action" texts, for exactly those cases |
| ChecklistUtils.OverdueTextsDistinct | src/lib/checklistUtils.ts:81-88 | different negative day differences give different overdue texts, so the text tells how late the action is |
| ChecklistUtils.RenderTimeFrame | src/lib/checklistUtils.ts:81-105 | a count of days reads "Overdue by n day(s)" or "Due in n day(s)", with the singular exactly for one day; the special one-day texts fit the pattern |
| ChecklistUtils.FormatProgressInjective | src/lib/checklistUtils.ts:124-126 | the "<current> of <required>" text determines both counts |
| ChecklistUtils.FormatProgress | src/lib/checklistUtils.ts:124-126 | for counts of 0 or more, the current count's numeral, " of ", then the required count's; a negative current count starts with '-' |
| DeadlineCalculator.CalculateDeadline | src/lib/deadlineCalculator.ts:9-15 | the simulator's deadline is the checklist's deadline computation, unchanged |
| DeadlineCalculator.CalculateActionStatus | src/lib/deadlineCalculator.ts:20-31 | an instance's status is the classifier applied to its own deadline, completion and count |
| DeadlineCalculator.CompletedInstanceIsDone | src/lib/deadlineCalculator.ts:20-31 | a completed instance is DONE at every time |
| DeadlineCalculator.NoDeadlineNeverOverdue | src/lib/deadlineCalculator.ts:20-31 | an instance without a deadline is never OVERDUE |
| EventProcessor.IndexOfId | src/lib/eventProcessor.ts:112 | the first position holding the id, or -1 exactly when no instance has it |
| EventProcessor.FindInstance | src/lib/eventProcessor.ts:112 | finds an instance exactly when one has the id, and what it finds is in the list with that id |
| EventProcessor.MarkActionComplete | src/lib/eventProcessor.ts:8-20 | the completed instance is DONE at the given time, keeps the deadline and anchor it is given, and a counter's count is its required count (0 if absent) |
| EventProcessor.IncrementCount | src/lib/eventProcessor.ts:25-41 | one more occurrence; completed at the event time exactly when the truthy target is reached, otherwise incomplete with the status the classifier gives |
| EventProcessor.CheckMilestoneSubsumption | src/lib/eventProcessor.ts:47-60 | exactly the journey's counter actions of the event type whose truthy target the count reached, in journey order, each marked complete at the wall-clock time |
| EventProcessor.CheckReminders | src/lib/reminderTrigger.ts:7-15 | the reminder check produces no notification |
| EventProcessor.AddSubsumed | src/lib/eventProcessor.ts:141-146 | keeps the updates so far as a prefix, appends only subsumed instances whose id is new, and leaves every subsumed id present |
| EventProcessor.InstanceFor | src/lib/eventProcessor.ts:112-122 | the existing instance of the action, or a fresh NOT_DONE one anchored at the entry time |
| EventProcessor.Matches | src/lib/eventProcessor.ts:99-101 | an action matches an event iff both the event type and the product are equal |
| EventProcessor.ProcessMatched | src/lib/eventProcessor.ts:110-151 | one pass keeps the updates so far as a prefix |
| EventProcessor.ProcessAll | src/lib/eventProcessor.ts:108-160 | no matching action gives no update; after each pass the updates are extended (see `ProcessAllPrefix`) |
| EventProcessor.ProcessEventSpec | src/lib/eventProcessor.ts:72-163 | no notifications; before the anchor exists at most one update, for the entry action, DONE and anchored at the event time when it matches; an event matching no action gives no update |
| EventProcessor.ProcessEvent | src/lib/eventProcessor.ts:72-163 | the loop equals the fold specification; no notifications; before the anchor exists only a matching first action completes, and it sets the anchor; an event matching no action changes nothing |
| EventProcessor.ProcessMatching | src/lib/eventProcessor.ts:110-160 | the loop over the matching actions equals the left fold of one pass per action |
| EventProcessor.ProcessPass | src/lib/eventProcessor.ts:111-151 | one loop body equals one step of the fold |
| EventProcessor.AppendNew | src/lib/eventProcessor.ts:141-146 | the inner loop appends exactly what `AddSubsumed` specifies |
| EventProcessor.CompletedInstanceSkipped | src/lib/eventProcessor.ts:124-127 | an action whose instance is complete adds nothing |
| EventProcessor.OccurrencePass | src/lib/eventProcessor.ts:147-151 | an open occurrence action gets one update: DONE at the event time, with its deadline and the journey's anchor |
| EventProcessor.CounterPass | src/lib/eventProcessor.ts:129-146 | an open counter is incremented once; every action the new count subsumes then has an update; appended subsumed updates are new ids stamped with the wall clock |
| EventProcessor.SubsumptionCovers | src/lib/eventProcessor.ts:47-60 | the subsumed milestones are exactly the subsumed journey actions, each DONE at the wall-clock time with its required count and no deadline |
| EventProcessor.UpdatesBelongToJourney | src/lib/eventProcessor.ts:99-160 | every update is for an action of the journey with the event's type |
| EventProcessor.ProcessAllPrefix | src/lib/eventProcessor.ts:110-160 | the loop only appends; earlier passes' updates keep their place |
| EventProcessor.EveryOpenMatchUpdated | src/lib/eventProcessor.ts:99-160 | once anchored, every matching journey action whose instance is open has an update |
| Simulator.EffectDeadline | src/contexts/SimulatorContext.tsx:51-59 | the effects give NONE actions no deadline and compute the others from the base with no previous completion |
| Simulator.InitialInstances | src/contexts/SimulatorContext.tsx:52-67 | one fresh instance per action, in order |
| Simulator.Reanchor | src/contexts/SimulatorContext.tsx:80-91 | the anchor effect recomputes the deadline from the new entry time with no previous completion and records that anchor; action, status, count and completion stay |
| Simulator.Refresh | src/contexts/SimulatorContext.tsx:100-123 | the time effect recomputes the deadline from the base, and the status is the classifier's verdict for the refreshed instance; a completed instance stays DONE; the rest stays |
| Simulator.InitialInstancesUnique | src/contexts/SimulatorContext.tsx:48-68 | fresh instances are NOT_DONE, uncounted and incomplete, one per action in order, with distinct ids when the actions' ids are distinct |
| Simulator.ReanchorKeepsIds | src/contexts/SimulatorContext.tsx:77-94 | the anchor effect keeps every instance in place and anchors each at the new entry time |
| Simulator.RefreshKeepsIds | src/contexts/SimulatorContext.tsx:97-142 | the time effect keeps every instance in place |
| Simulator.RefreshIdempotent | src/contexts/SimulatorContext.tsx:97-142 | running the time effect twice at the same time is running it once |
| Simulator.RefreshedStatuses | src/contexts/SimulatorContext.tsx:100-123 | after the time effect each status is the classifier's verdict for the instance's own deadline, and completed instances stay DONE |
| Simulator.Upsert | src/contexts/SimulatorContext.tsx:184-191 | an update with a known id takes the first slot with that id and every other slot keeps its instance; an update with a new id is appended |
| Simulator.UpsertFinds | src/contexts/SimulatorContext.tsx:184-191 | after an upsert, looking up the update's id finds the update |
| Simulator.UpsertOthers | src/contexts/SimulatorContext.tsx:184-191 | an upsert changes no lookup of another id |
| Simulator.UpsertKeepsUnique | src/contexts/SimulatorContext.tsx:184-191 | an upsert keeps instance ids distinct |
| Simulator.UpsertAll | src/contexts/SimulatorContext.tsx:181-194 | merging a batch never shrinks the list, grows it by at most one slot per update, and keeps ids distinct; what each slot then holds is stated by `UpsertAllLastWins` |
| Simulator.UpsertAllLastWins | src/contexts/SimulatorContext.tsx:181-194 | after merging a batch, each id holds the last update with that id, or its old instance when no update names it |
| Simulator.MergeUpdates | src/contexts/SimulatorContext.tsx:181-194 | the merge loop equals upserting the updates in order and keeps ids distinct |
| Simulator.ApplyEvent | src/contexts/SimulatorContext.tsx:170-194 | the processor's updates for the event, merged in order into the instances, with distinct ids kept and no notification |
| Simulator.AnchorAfter | src/contexts/SimulatorContext.tsx:205-210 | the anchor is set to the event's time exactly when there is none yet and the event matches the first action |
| Simulator.MarkRead | src/contexts/SimulatorContext.tsx:217-221 | exactly the notifications with the id become read; the others are unchanged |
| Simulator.MarkReadIdempotent | src/contexts/SimulatorContext.tsx:217-221 | marking read again changes nothing, and the marked ones are read |
| Simulator.SimulatorSession.constructor | src/contexts/SimulatorContext.tsx:28-35 | a new session has no journey, no events, instances, notifications or anchor, and the clock at now |
| Simulator.SimulatorSession.SelectJourney | src/contexts/SimulatorContext.tsx:27 | the journey input changes and nothing else |
| Simulator.SimulatorSession.InitEffect | src/contexts/SimulatorContext.tsx:38-72 | without a journey everything is cleared; otherwise one fresh instance per action from the deadline base; distinct ids when the actions' ids are |
| Simulator.SimulatorSession.AnchorEffect | src/contexts/SimulatorContext.tsx:77-94 | with a journey and an anchor, deadlines are recomputed from the anchor; otherwise nothing changes; distinct ids are kept |
| Simulator.SimulatorSession.TimeEffect | src/contexts/SimulatorContext.tsx:97-142 | with a journey and instances, every deadline and status is recomputed at the simulated time; otherwise nothing changes; distinct ids are kept |
| Simulator.SimulatorSession.SetSimulatedTime | src/contexts/SimulatorContext.tsx:144-146 | sets the clock and nothing else |
| Simulator.SimulatorSession.FastForwardDays | src/contexts/SimulatorContext.tsx:148-154 | moves the clock by whole days and nothing else |
| Simulator.SimulatorSession.ResetToNow | src/contexts/SimulatorContext.tsx:156-158 | sets the clock to now and nothing else |
| Simulator.SimulatorSession.TriggerEvent | src/contexts/SimulatorContext.tsx:160-211 | without a journey nothing changes; otherwise the event at the simulated time is recorded newest first, the processor's updates are merged in, and the anchor is set when the event completes the entry action; distinct ids are kept |
| Simulator.SimulatorSession.SetEntryActionCompletedAt | src/contexts/SimulatorContext.tsx:213-215 | sets the anchor and nothing else |
| Simulator.SimulatorSession.MarkNotificationRead | src/contexts/SimulatorContext.tsx:217-221 | marks the notifications with the id read and changes nothing else |
| Simulator.SimulatorSession.ResetSimulation | src/contexts/SimulatorContext.tsx:223-263 | without a journey nothing changes; otherwise events, notifications, anchor and reminder history are cleared, the clock is now, and fresh instances count from now |
| TimelineUtils.CalculateActionDeadline | src/lib/timelineUtils.ts:31-50 | day positions: none for NONE, the truthy duration for ABSOLUTE, the previous day plus the offset for WITH_PREVIOUS, none when there is no previous day |
| TimelineUtils.CalculateTimelinePositions | src/lib/timelineUtils.ts:55-91 | the loop equals the positions specification; one position per action, in order, with its id and action |
| TimelineUtils.Positions | src/lib/timelineUtils.ts:55-91 | one position per action, in order, with its id and action; the first at day 0 |
| TimelineUtils.PositionsAndChain | src/lib/timelineUtils.ts:55-91 | the positions so far and the chain day, with the entry action at day 0 |
| TimelineUtils.PositionsPrefix | src/lib/timelineUtils.ts:55-91 | a prefix's positions are the positions' prefix |
| TimelineUtils.PositionAt | src/lib/timelineUtils.ts:59-88 | each later action's day is its deadline from the chain before it, or -1; the chain moves only when there is a deadline |
| TimelineUtils.FirstAtZero | src/lib/timelineUtils.ts:61-69 | the entry action is at day 0 whatever its range |
| TimelineUtils.AbsolutePosition | src/lib/timelineUtils.ts:39-41 | a later ABSOLUTE action is at its truthy duration, otherwise at -1 |
| TimelineUtils.NonePosition | src/lib/timelineUtils.ts:35-37 | a later NONE action is at -1 |
| TimelineUtils.WithPreviousPosition | src/lib/timelineUtils.ts:43-49 | a later WITH_PREVIOUS action is its offset after the chain, and moves the chain there |
| TimelineUtils.ChainSteps | src/lib/timelineUtils.ts:57-88 | the chain starts at 0, stays put after an undated action and moves to each dated one |
| TimelineUtils.MaxOf | src/lib/timelineUtils.ts:106 | `Math.max` of a non-empty list is a member and an upper bound |
| TimelineUtils.GetMaxJourneyDays | src/lib/timelineUtils.ts:96-109 | at least 90, no dated position beyond it, and either 90 or a dated position's day |
| TimelineUtils.HasActionNearby | src/lib/timelineUtils.ts:114-123 | true iff some dated position is within the threshold of the marker |
| TimelineUtils.IsKeyMilestone | src/lib/timelineUtils.ts:128-130 | true exactly for 1, 7 and 90 days |
| TimelineUtils.RelevantStandardMarkers | src/lib/timelineUtils.ts:148-161 | exactly the standard markers within range that are key milestones or near an action, sorted by day |
| TimelineUtils.MarkersShape | src/lib/timelineUtils.ts:135-167 | the markers are "Start" followed by the relevant standard markers in table order: the sort changes nothing |
| TimelineUtils.CalculateTimelineMarkers | src/lib/timelineUtils.ts:135-167 | "Start" plus the relevant standard markers, as a permutation of them, sorted by day |
| TimelineUtils.StandardMarkersFacts | src/lib/timelineUtils.ts:15-24 | the standard table is in increasing day order and every entry is at least a day in |
| TimelineUtils.MarkersStartSortedBounded | src/lib/timelineUtils.ts:135-167 | the output starts with "Start", is sorted by day, and its other markers are standard ones within range |
| TimelineUtils.MarkerIncludedIff | src/lib/timelineUtils.ts:148-161 | a standard marker shows iff it is within range and is a key milestone or has a dated action within 3 days |
| TimelineUtils.KeyMilestonesShown | src/lib/timelineUtils.ts:139-161 | without an explicit range the 1-day, 1-week and 3-month markers always show |
| Grouping.ImmediateIff | src/lib/utils.ts:12-15 | an action is immediate iff it is WITH_PREVIOUS with an absent or zero offset |
| Grouping.IsImmediateSequence | src/lib/utils.ts:12-15 | true iff the action is WITH_PREVIOUS with an absent or zero offset |
| Grouping.IsInGroup | src/lib/utils.ts:32-53 | the first action is never grouped; an immediate action is, and so is one followed by an immediate action, and no other action is |
| Grouping.IsGroupStart | src/lib/utils.ts:59-67 | a start is grouped and not first; at index 1 start iff grouped; later, start iff it and its predecessor are not immediate and its successor is |
| Grouping.IsGroupEnd | src/lib/utils.ts:73-81 | an end iff it is an immediate action, not last, whose successor is not immediate and not followed by an immediate one |
| Grouping.ImmediateJoinsPredecessor | src/lib/utils.ts:32-53 | an immediate action after index 0 is grouped, and so is its predecessor unless that is the first action |
| Grouping.NotImmediateNotSourceUngrouped | src/lib/utils.ts:32-53 | an action that is not immediate and is not followed by an immediate one is not grouped |
| Grouping.GroupStartIsSource | src/lib/utils.ts:59-67 | from index 2 on, a group starts exactly at a non-immediate action between a non-immediate predecessor and an immediate successor |
| Grouping.SecondActionStartsWithoutSource | src/lib/utils.ts:32-67 | an immediate second action starts a group alone, because the first action is never grouped |
| Grouping.GroupEndIsLastImmediate | src/lib/utils.ts:73-81 | a group ends at an immediate action whose successor is not immediate; the last action never ends one |
| Grouping.GroupEndFrom | src/lib/utils.ts:73-81 | the end found by walking forward lies between the start and the last index |
| Grouping.GroupRunEnds | src/lib/utils.ts:32-81 | from a grouped index, every action up to the group's end is grouped, and that end is a group end or the last action |
| ActionLibrary.Lookup | src/lib/actionLibrary.ts:139-141 | an object lookup: absent iff no entry has the key, otherwise some entry's value under that key |
| ActionLibrary.LookupOfEntry | src/lib/actionLibrary.ts:139-141 | with distinct keys, looking up an entry's key finds that entry |
| ActionLibrary.GetActionLibraryItem | src/lib/actionLibrary.ts:139-141 | a found item has the requested id and is in the library |
| ActionLibrary.GetAllActionLibraryItems | src/lib/actionLibrary.ts:146-148 | the library's items in declaration order |
| ActionLibrary.LibraryTableWellFormed | src/lib/actionLibrary.ts:7-134 | fourteen entries, each under its own id, with distinct keys |
| ActionLibrary.EveryItemFound | src/lib/actionLibrary.ts:139-148 | every library item is found by its id |
| ActionLibrary.CounterItems | src/lib/actionLibrary.ts:7-134 | exactly A03, A04 and A13 are counters |
| ActionLibrary.GetActionLibraryItemsByProduct | src/lib/actionLibrary.ts:153-157 | exactly the library items that support the product |
| ActionLibrary.ByProductInTableOrder | src/lib/actionLibrary.ts:153-157 | two items of the product's list appear in the library table in the same order |
| ActionLibrary.GetActionCategory | src/lib/actionLibrary.ts:187-189 | the mapped category, or Other for an unmapped id |
| ActionLibrary.EveryItemCategorised | src/lib/actionLibrary.ts:167-182 | every library item has an explicit category |
| ActionLibrary.InCategory | src/lib/actionLibrary.ts:194-208 | exactly the items with that category |
| ActionLibrary.CategorySizes | src/lib/actionLibrary.ts:194-208 | the four category lists together are as long as the list they split |
| ActionLibrary.GroupByCategory | src/lib/actionLibrary.ts:195-207 | the loop yields all four categories, each with its items in order |
| ActionLibrary.GetActionsByCategory | src/lib/actionLibrary.ts:194-208 | all four categories, each holding its library items in order |
| ActionLibrary.CategoriesPartition | src/lib/actionLibrary.ts:194-208 | each library item is in exactly the list its category names, and the lists hold fourteen items |
| TimeRangeSelector.RoundDivNearest | src/components/builder/TimeRangeSelector.tsx:32-38 | the rounding is to the nearest whole number, with halves going up |
| TimeRangeSelector.RoundDivWeeksMonths | src/components/builder/TimeRangeSelector.tsx:32-38 | weeks and months round as `(d + 3) div 7` and `(d + 15) div 30` |
| TimeRangeSelector.UnitDays | src/components/builder/TimeRangeSelector.tsx:32-47 | every unit is a positive number of days |
| TimeRangeSelector.DaysToDisplayValue | src/components/builder/TimeRangeSelector.tsx:32-38 | nothing for a falsy day count; the day count itself in days; otherwise days divided by the unit, rounded |
| TimeRangeSelector.DisplayValueToDays | src/components/builder/TimeRangeSelector.tsx:41-47 | nothing for a falsy value; otherwise the value times the unit's days |
| TimeRangeSelector.DisplayRoundTrip | src/components/builder/TimeRangeSelector.tsx:32-47 | storing an entered non-zero value and showing it again gives it back, in every unit |
| TimeRangeSelector.StoredRoundTrip | src/components/builder/TimeRangeSelector.tsx:32-47 | showing a day count and storing it back gives the nearest multiple of the unit, or nothing when that is 0 |
| TimeRangeSelector.TenDaysInWeeks | src/components/builder/TimeRangeSelector.tsx:32-47 | the stored direction loses days: 10 days shows as 1 week, which stores 7 days |
| TimeRangeSelector.HandleTypeChange | src/components/builder/TimeRangeSelector.tsx:57-73 | the new kind keeps its own amount (or 7 days, or 1 day) and unit (or days) and drops the other kind's fields; NONE clears everything |
| TimeRangeSelector.TypeChangeIdempotent | src/components/builder/TimeRangeSelector.tsx:57-73 | choosing the same kind twice is choosing it once |
| TimeRangeSelector.TypeChangeHasAmount | src/components/builder/TimeRangeSelector.tsx:57-73 | a freshly chosen dated kind always has a truthy amount |
| TimeRangeSelector.TypeSwitchForgetsDuration | src/components/builder/TimeRangeSelector.tsx:57-73 | going to "with previous" and back loses the duration, which returns as 7 days |
| TimeRangeSelector.HandleDurationChange | src/components/builder/TimeRangeSelector.tsx:75-82 | stores the entered value converted to days with its unit and keeps the other fields |
| TimeRangeSelector.HandleOffsetChange | src/components/builder/TimeRangeSelector.tsx:84-91 | stores the entered offset converted to days with its unit and keeps the other fields |
| TimeRangeSelector.DurationInput | src/components/builder/TimeRangeSelector.tsx:137-144 | a change is made iff the field is cleared or a positive number is typed, with the current unit |
| TimeRangeSelector.OffsetInput | src/components/builder/TimeRangeSelector.tsx:189-196 | a change is made iff the field is cleared or a positive number is typed, with the current unit |
| TimeRangeSelector.DurationUnitSelect | src/components/builder/TimeRangeSelector.tsx:150-153 | the duration unit becomes the chosen one, kind and offset stay, and a falsy duration stays empty |
| TimeRangeSelector.OffsetUnitSelect | src/components/builder/TimeRangeSelector.tsx:202-205 | the offset unit becomes the chosen one, kind and duration stay, and a falsy offset stays empty |
| TimeRangeSelector.TypedDurationPositive | src/components/builder/TimeRangeSelector.tsx:137-144 | typing only ever stores a positive day count, or none |
| TimeRangeSelector.UnitSwitchKeepsDisplay | src/components/builder/TimeRangeSelector.tsx:150-153 | after a unit switch the duration shows the same number, stored as that many of the new unit |
| TimeRangeSelector.OffsetUnitSwitchKeepsDisplay | src/components/builder/TimeRangeSelector.tsx:202-205 | after a unit switch the offset shows the same number, stored as that many of the new unit |
| ReminderList.ChangeChannel | src/components/builder/ReminderList.tsx:33-38 | exactly the reminders with the id get the channel; the others are unchanged |
| ReminderList.WithFrequency | src/components/builder/ReminderList.tsx:40-45 | "every x days" keeps a truthy day count or uses 3, "once" drops it; id, channel and order stay |
| ReminderList.ChangeFrequency | src/components/builder/ReminderList.tsx:40-45 | exactly the reminders with the id get the frequency change |
| ReminderList.ChangeFrequencyDays | src/components/builder/ReminderList.tsx:47-52 | exactly the reminders with the id get the day count |
| ReminderList.Delete | src/components/builder/ReminderList.tsx:54-57 | exactly the reminders without the id remain |
| ReminderList.DeleteInOrder | src/components/builder/ReminderList.tsx:54-57 | a delete works piecewise over concatenation and keeps a single reminder exactly when its id differs, so the survivors keep their order |
| ReminderList.ParseFrequencyDays | src/components/builder/ReminderList.tsx:129-134 | the entered day count when it is a non-zero number, otherwise 3 |
| ReminderList.EditsKeepIds | src/components/builder/ReminderList.tsx:33-52 | no edit adds, drops or reorders reminders |
| ReminderList.FrequencyRoundTrip | src/components/builder/ReminderList.tsx:40-45 | "every x days" then "once" is "once", and choosing "every x days" twice is choosing it once |
| ReminderList.DeleteKeepsOthers | src/components/builder/ReminderList.tsx:54-57 | deleting an id no reminder has changes nothing |
| ReminderList.DeleteUndoesAdd | src/components/builder/ReminderList.tsx:54-57 | deleting a reminder just added under a fresh id restores the list |
| ActionForm.SelectedLibraryItem | src/components/builder/ActionForm.tsx:59-60 | no item while the type is empty; a found item has that id and is in the library |
| ActionForm.DefaultProduct | src/components/builder/ActionForm.tsx:116 | the item's first product, or BMA when it lists none |
| ActionForm.DefaultRequiredCount | src/components/builder/ActionForm.tsx:118-122 | a count of 1 exactly for counter items |
| ActionForm.LibraryDefaultsSupported | src/components/builder/ActionForm.tsx:114-128 | choosing a library item always selects a product it supports |
| ActionForm.FormErrors | src/components/builder/ActionForm.tsx:140-163 | each field's error is present exactly when its rule fails: no type, a counter without a count of at least 1, a dated range shorter than a day |
| ActionForm.ValidIff | src/components/builder/ActionForm.tsx:140-163 | the form is valid iff a type is chosen, a counter has at least 1 event, and a dated range is at least a day |
| ActionForm.ZeroOffsetRejected | src/components/builder/ActionForm.tsx:157-159 | an offset of 0 days is rejected |
| ActionForm.BuildAction | src/components/builder/ActionForm.tsx:172-184 | the saved action takes the library's type facts and the form's choices; only counters keep a count, and guidance is on only when supported and chosen |
| ActionForm.ValidatedActionWellFormed | src/components/builder/ActionForm.tsx:165-187 | a saved action has a known type, a count of at least 1 exactly for counters, and a dated range of at least a day |
| ActionForm.NewReminder | src/components/builder/ActionForm.tsx:130-138 | the added reminder is a one-off push with the given id and order |
| ActionForm.EditedActionTakesItemDefaults | src/components/builder/ActionForm.tsx:90-128 | opening on an action of a library type shows that item's defaults for product, guidance and count, unless that action was already loaded with its item showing |
| ActionForm.ReopenKeepsActionValues | src/components/builder/ActionForm.tsx:114-128 | reopening on the action already loaded fires no library effect |
| ActionForm.ClearedPropKeepsItemDefaults | src/components/builder/ActionForm.tsx:90-128 | a render that swaps the prop from an action to none shows the previous item's defaults, although no type is selected |
| ActionForm.BlankReopenResets | src/components/builder/ActionForm.tsx:90-128 | opening a blank form after a render with no action and no item keeps the blank values: the open effect fires alone |
| ActionForm.ActionFormState.constructor | src/components/builder/ActionForm.tsx:48-55 | the blank form's initial values |
| ActionForm.ActionFormState.OpenEffect | src/components/builder/ActionForm.tsx:90-112 | the open effect alone: the edited action's fields, or the blank form's values, with no errors |
| ActionForm.ActionFormState.LibraryRender | src/components/builder/ActionForm.tsx:59-60 | a render fires the library effect exactly when the selected item changed to an item, and then records the shown item |
| ActionForm.ActionFormState.Open | src/components/builder/ActionForm.tsx:90-128 | opening loads the edited action's type, visibility, range and reminders (or the blank form's) and clears the errors; the product, guidance and count are the library defaults of the item the library effect last fires with (the shown item when the edited action changed, then the loaded item when it differs), otherwise the loaded or blank values |
| ActionForm.ActionFormState.LibraryItemEffect | src/components/builder/ActionForm.tsx:114-128 | a firing of the library effect sets the product, guidance and count to the item's defaults; nothing else changes |
| ActionForm.ActionFormState.ChooseItem | src/components/builder/ActionForm.tsx:234-237 | the type is set and its error cleared; in the render that follows, the item's defaults are applied exactly when the type changed to a library item, otherwise product, guidance and count stay; range and reminders are kept |
| ActionForm.ActionFormState.AddReminder | src/components/builder/ActionForm.tsx:130-138 | one reminder appended, numbered by the old length; nothing else changes |
| ActionForm.ActionFormState.ChangeTimeRange | src/components/builder/ActionForm.tsx:469-476 | the range is stored, its error cleared, and the reminders dropped exactly when the range becomes NONE |
| ActionForm.ActionFormState.ValidateForm | src/components/builder/ActionForm.tsx:140-163 | records exactly the form's errors and reports whether there are none |
| ActionForm.ActionFormState.HandleSave | src/components/builder/ActionForm.tsx:165-187 | nothing without an item or while loading; otherwise validates, and saves the built action exactly when there are no errors |
| JourneyContext.ReplaceJourney | src/contexts/JourneyContext.tsx:202-204 | every journey with the edited id is replaced; the others are unchanged |
| JourneyContext.AddActionTo | src/contexts/JourneyContext.tsx:178-199 | the action goes last with its id, and one node pointing at it goes last at the old node count |
| JourneyContext.ApplyPatch | src/contexts/JourneyContext.tsx:280-282 | a patch never changes the action's id |
| JourneyContext.FullPatchReplaces | src/contexts/JourneyContext.tsx:280-282 | a full patch turns the action into the form's action under its old id |
| JourneyContext.EmptyPatchKeeps | src/contexts/JourneyContext.tsx:280-282 | an empty patch changes nothing |
| JourneyContext.PatchActions | src/contexts/JourneyContext.tsx:280-282 | exactly the actions with the id are patched |
| JourneyContext.UpdateActionIn | src/contexts/JourneyContext.tsx:280-288 | the update patches the actions and stamps the time, keeping the nodes and journey fields |
| JourneyContext.UpdateKeepsOrder | src/contexts/JourneyContext.tsx:280-282 | an update keeps the action order and every id |
| JourneyContext.DeleteActionFrom | src/contexts/JourneyContext.tsx:344-354 | exactly the actions without the id remain, and exactly the nodes not pointing at it, in order (`DeleteInOrder`) |
| JourneyContext.DeleteInOrder | src/contexts/JourneyContext.tsx:344-354 | both filters split over concatenation, and a single action or node stays exactly when it does not carry the id, so what stays keeps its order |
| JourneyContext.DeleteKeepsStartNodes | src/contexts/JourneyContext.tsx:344-347 | nodes without an action, the start node among them, survive a delete |
| JourneyContext.DeleteUndoesAdd | src/contexts/JourneyContext.tsx:178-199 | deleting an action just added under a fresh id restores the journey apart from its time stamp |
| JourneyContext.FindAction | src/contexts/JourneyContext.tsx:388 | finds an action exactly when one has the id, and what it finds has it |
| JourneyContext.ReorderedActions | src/contexts/JourneyContext.tsx:387-389 | at most one action per listed id, each a journey action with a listed id |
| JourneyContext.IndexOf | src/contexts/JourneyContext.tsx:393 | the first position of the id, or -1 exactly when it is absent |
| JourneyContext.RepositionNodes | src/contexts/JourneyContext.tsx:391-397 | each node is repositioned on its own |
| JourneyContext.ReorderActionsIn | src/contexts/JourneyContext.tsx:387-404 | the reordered actions and repositioned nodes, with the time stamped |
| JourneyContext.ReorderPositions | src/contexts/JourneyContext.tsx:391-397 | a listed action's node moves to one past its index; others, the start node among them, keep their place and fields |
| JourneyContext.ReorderFollowsIds | src/contexts/JourneyContext.tsx:387-389 | the reordered ids are the listed ids that name a journey action, in list order |
| JourneyContext.NewJourney | src/contexts/JourneyContext.tsx:495-503 | a new journey is non-default and empty, with one start node at 0 |
| JourneyContext.FindJourney | src/contexts/JourneyContext.tsx:163 | finds a journey exactly when one has the id, and what it finds has it |
| JourneyContext.ReplaceOnlyNamesake | src/contexts/JourneyContext.tsx:202-204 | other journeys are untouched, and looking up the edited id finds the edit |
| JourneyContext.FindFirstMatch | src/contexts/JourneyContext.tsx:163 | the found journey is the first with the id |
| JourneyContext.JourneyStore.constructor | src/contexts/JourneyContext.tsx:28-29 | the loaded journeys with none selected |
| JourneyContext.JourneyStore.SetCurrentJourney | src/contexts/JourneyContext.tsx:162-167 | selects a listed journey; an unknown id changes nothing |
| JourneyContext.JourneyStore.Commit | src/contexts/JourneyContext.tsx:201-204 | the edited journey becomes current and replaces its namesake |
| JourneyContext.JourneyStore.AddAction | src/contexts/JourneyContext.tsx:169-204 | without a journey the "No journey selected" error and no change; otherwise the added journey is current and listed |
| JourneyContext.JourneyStore.UpdateAction | src/contexts/JourneyContext.tsx:271-293 | without a journey the error and no change; otherwise the updated journey is current and listed |
| JourneyContext.JourneyStore.DeleteAction | src/contexts/JourneyContext.tsx:335-359 | without a journey the error and no change; otherwise the journey without the action is current and listed |
| JourneyContext.JourneyStore.ReorderActions | src/contexts/JourneyContext.tsx:384-409 | without a journey nothing happens; otherwise the reordered journey is current and listed |
| JourneyContext.JourneyStore.CreateJourney | src/contexts/JourneyContext.tsx:494-506 | the new journey is appended and made current |
| TimelineView.ClassifyLabel | src/components/builder/TimelineView.tsx:16-31 | day 0 is "Start"; under a week a day count; under 30 days rounded weeks; under a year rounded 30-day months; otherwise rounded years |
| TimelineView.LabelCountsInRange | src/components/builder/TimelineView.tsx:16-31 | a positive day gives a count of at least 1, at most 6 days, 4 weeks or 12 months |
| TimelineView.LabelIff | src/components/builder/TimelineView.tsx:16-31 | two days share a label text iff they round to the same count of the same unit |
| TimelineView.FourWeeksIsNotAMonth | src/components/builder/TimelineView.tsx:16-31 | 28 days is "4 Weeks" and 30 days is "1 Month": different buckets |
| TimelineView.FormatTimelineLabel | src/components/builder/TimelineView.tsx:16-31 | "Start" exactly for day 0; 1-6 days read "n Day(s)"; from a week on, the count's numeral and a week, month or year word |
| TimelineView.Dated | src/components/builder/TimelineView.tsx:51 | exactly the positions with a day of 0 or more, in order |
| TimelineView.Undated | src/components/builder/TimelineView.tsx:52 | exactly the positions with a negative day, in order |
| TimelineView.DatedUndatedInOrder | src/components/builder/TimelineView.tsx:51-52 | both filters work piecewise over concatenation and take a single position by the sign of its day, so they keep input order |
| TimelineView.AddToBuckets | src/components/builder/TimelineView.tsx:63-85 | a new label opens a bucket at the end; a known one gets the item appended and keeps the earlier of the two days |
| TimelineView.GroupBySizes | src/components/builder/TimelineView.tsx:55-86 | at most one bucket per position, at least one when there is a position, and no bucket is empty |
| TimelineView.LabelsAreDistinct | src/components/builder/TimelineView.tsx:55-86 | no two buckets share a label |
| TimelineView.EveryLabelHasBucket | src/components/builder/TimelineView.tsx:55-86 | every dated position's label has a bucket |
| TimelineView.EveryBucketHasPosition | src/components/builder/TimelineView.tsx:55-86 | every bucket's label is some position's label |
| TimelineView.BucketMembers | src/components/builder/TimelineView.tsx:57-80 | each bucket holds exactly the items with its label, in input order |
| TimelineView.BucketDayAttained | src/components/builder/TimelineView.tsx:66-86 | a bucket's day is the day of one of its positions |
| TimelineView.BucketDayMinimal | src/components/builder/TimelineView.tsx:66-86 | no position with a bucket's label is earlier than the bucket's day |
| TimelineView.SortedBuckets | src/components/builder/TimelineView.tsx:89 | the displayed buckets are sorted by day and are a permutation of the grouped buckets |
| TimelineView.DisplayedBucket | src/components/builder/TimelineView.tsx:45-92 | every displayed bucket holds exactly the actions with its label and shows the earliest of their days |
| TimelineView.FillBuckets | src/components/builder/TimelineView.tsx:55-86 | the loop builds exactly the grouped buckets |
| TimelineView.ComputeBuckets | src/components/builder/TimelineView.tsx:45-92 | the buckets of the dated positions sorted by day, and the undated positions in order |
| MemberChecklist.NodePosition | src/components/checklist/MemberChecklist.tsx:17-20 | the position of the first node pointing at the action, or 9999 when none does |
| MemberChecklist.VisibleActions | src/components/checklist/MemberChecklist.tsx:13-27 | nothing without a journey; otherwise a permutation of the visible actions sorted by node position |
| MemberChecklist.VisibleIff | src/components/checklist/MemberChecklist.tsx:14-15 | an action is listed iff it is in the journey and visible |
| MemberChecklist.TiesKeepJourneyOrder | src/components/checklist/MemberChecklist.tsx:17-26 | actions with the same node position appear in journey order |
| MemberChecklist.OrderedJourneyUnchanged | src/components/checklist/MemberChecklist.tsx:17-26 | visible actions already in node order are listed as they are |
| MemberChecklist.NodelessActionsLast | src/components/checklist/MemberChecklist.tsx:17-26 | an action without a node comes after every action whose node position is below 9999 |
| MemberChecklist.MapArgs | src/components/checklist/MemberChecklist.tsx:64-90 | one item per action, in order |
| MemberChecklist.ChecklistItems | src/components/checklist/MemberChecklist.tsx:59-92 | one item per visible action, in order; every item gets no completion, a count of 0, the entry time as the previous completion, and the current time |
| MemberChecklist.ReadOnlyStatus | src/components/checklist/MemberChecklist.tsx:59-92 | an item never shows IN_PROGRESS, and shows DONE exactly for a counter with a negative required count |
| EventSimulatorPanel.ProductName | src/components/checklist/EventSimulatorPanel.tsx:27 | no product name contains ':' |
| EventSimulatorPanel.EventKeyInjective | src/components/checklist/EventSimulatorPanel.tsx:27 | different (event type, product) pairs never share a key |
| EventSimulatorPanel.KeyPresentIff | src/components/checklist/EventSimulatorPanel.tsx:26-36 | a pair's key is in the map iff some button so far has that pair |
| EventSimulatorPanel.FillEventMap | src/components/checklist/EventSimulatorPanel.tsx:26-36 | the loop yields the deduplicated triggers, one per new pair; their first-appearance order is `ButtonsInFirstAppearanceOrder` |
| EventSimulatorPanel.DedupeSizes | src/components/checklist/EventSimulatorPanel.tsx:26-36 | at most one button per action, at least one when there is an action, and the first action's button first |
| EventSimulatorPanel.AvailableEvents | src/components/checklist/EventSimulatorPanel.tsx:21-39 | no buttons without a journey; otherwise at most one per action, and the first action's button first; the full order is `ButtonsInFirstAppearanceOrder` |
| EventSimulatorPanel.ComputeAvailableEvents | src/components/checklist/EventSimulatorPanel.tsx:21-39 | no buttons without a journey; otherwise the deduplicated triggers |
| EventSimulatorPanel.PairsDistinct | src/components/checklist/EventSimulatorPanel.tsx:26-36 | no two buttons share a pair |
| EventSimulatorPanel.EveryPairOffered | src/components/checklist/EventSimulatorPanel.tsx:26-36 | every action's pair has a button |
| EventSimulatorPanel.ButtonsFromFirstActions | src/components/checklist/EventSimulatorPanel.tsx:26-36 | each button is the trigger of the first action with its pair, titled from the library |
| EventSimulatorPanel.ButtonsInFirstAppearanceOrder | src/components/checklist/EventSimulatorPanel.tsx:24-38 | for buttons i < j, the first action with i's pair comes before the first action with j's pair |
| EventSimulatorPanel.TriggerCount | src/components/checklist/EventSimulatorPanel.tsx:95-97 | a count never exceeds the number of events |
| EventSimulatorPanel.TriggerCountStep | src/components/checklist/EventSimulatorPanel.tsx:95-97 | a new event raises its own pair's count by one and leaves every other count alone |
| EventSimulatorPanel.NoActionsNoButtons | src/components/checklist/EventSimulatorPanel.tsx:22 | no journey or no actions means no buttons |

## Left out

- Persistence: the Supabase reads and writes of the journey store are not modelled. Only the in-memory state updates are, and a database error path does not exist in the model. The same goes for the load errors and the mock-journey fallback.
- Loading and error flags (`isLoading`, `isLoadingActions`, `error`) are not modelled. `HandleSave` takes `isLoadingActions` as a parameter.
- Randomness and the clock: `uuidv4()` and `new Date()` are parameters (`actionId`, `nodeId`, `eventId`, `freshId`, `now`, `wallClock`).
- NewJourney: stamps `createdAt` and `updatedAt` with one `now`, while src/contexts/JourneyContext.tsx:500-501 calls `new Date()` once for each, so the two stamps may differ by the time between the calls.
- Date formatting: `format(deadline, 'MMM d, yyyy')`, `differenceInDays` and `differenceInHours` are not modelled. The formatted date and the two differences are inputs of `ChecklistUtils.FormatTimeFrame`.
- ChecklistUtils.FormatTimeFrame: its contract covers only the two texts that need no date arithmetic. The other cases are stated on `ClassifyTimeFrame` and `OverdueTextsDistinct`.
- `calculateProgressPercentage` (checklistUtils.ts:131-133) and `getTimelinePosition` (timelineUtils.ts:172-175) compute floating-point percentages for layout. They are not modelled.
- Time zones and daylight saving: `AddDays` adds whole 24-hour days. `fastForwardDays` uses `setDate`, which is the same only without DST changes.
- React scheduling: the simulator's effects run when their method is called. Batching and stale closures are not modelled. In React, the time effect can overwrite instances built by the init effect in the same render. The action form does model which renders fire its library effect. It compares the selected item by value; the source compares object identity, which is the same thing here because equal ids give the same library table entry.
- The wall clock of subsumption: `wallClock` is one instant for the whole event. The source calls `new Date()` once per subsumed action (eventProcessor.ts:59), so its stamps can differ by the milliseconds the loop takes.
- ActionForm search filtering (`filteredActionsByCategory`) uses Unicode lower-casing. It is not modelled.
- Tab state (`activeTab`) and the presentational components are not modelled. This includes the marker and card components, the selector and pure layout.
- `lastReminderTimes` is carried through but never written. The reminder check in the source is a stub that returns nothing, and the model follows it.
- NaN: a JavaScript `NaN` in a numeric field is not modelled. Only the number inputs model it, as `Entry.NotANumber`.
- Grouping: the source reads `actions[i]` without a bounds check. The model requires the indexes it reads to exist.

## Notes on the source's behaviour

- A started counter below its target is IN_PROGRESS even after its deadline (`CounterInProgressBeatsDeadline`).
- Opening the action form on an existing action of a library type shows that item's defaults for product, guidance and count, not the action's own. The library effect fires after the open effect and overwrites them: a counter saved with 5 required events opens showing 1 (`EditedActionTakesItemDefaults`). Within the component, a parent that swaps the prop from an action to none while the form stays open would get the previous item's defaults on a blank form (`ClearedPropKeepsItemDefaults`). A parent that clears the edited action when it closes the dialog gets that firing while the dialog is hidden; the next blank opening then fires the open effect alone and shows the blank values (`BlankReopenResets`).
- Subsumed milestones are marked complete at the wall clock and not at the event time. They match every product of the event type. They can re-stamp an action whose instance is already complete, but only when no update for its id exists yet in the batch.
- `updatedActions` can list an action twice: once when the loop reaches it, after it has already been added by subsumption.
  `MergeUpdates` handles this: the last update wins (`UpsertAllLastWins`).
- A comment in the timeline view suggests that 28 and 30 days are one bucket. The code gives "4 Weeks" and "1 Month" (`FourWeeksIsNotAMonth`).
- The read-only checklist never advances the previous-action completion. It shows DONE for a counter whose required count is negative (`ReadOnlyStatus`).
- A reorder never moves a node whose action id is the empty string (`ReorderPositions`).
- Editing a field sets that field's validation entry to the empty string. The key stays in the map, so `|validationErrors|` counts it until the next validation.
