/** Domain types of the journey builder: actions with their time-range and
    reminder configuration, journeys, and the simulator's runtime records.

    Instants are whole milliseconds; `AddDays` is calendar-day addition that
    keeps the time of day (no time zones, no daylight saving). Numeric fields
    that the source declares optional are `Option<int>`; the source's
    truthiness test on such a field (`x.f ? ... : ...`, `x.f || d`) is
    `Truthy` / `OrElse` below. */
module Types {

  datatype Option<+T> = None | Some(value: T)

  type Instant = int

  const MsPerDay: int := 86_400_000

  /** `addDays` of date-fns on integer instants. */
  function AddDays(t: Instant, days: int): Instant
  {
    t + days * MsPerDay
  }

  /** A JavaScript number that may be absent is truthy when present and non-zero. */
  predicate Truthy(o: Option<int>) {
    o.Some? && o.value != 0
  }

  /** `o || d` on an optional number. */
  function OrElse(o: Option<int>, d: int): (r: int)
    ensures Truthy(o) ==> r == o.value
    ensures !Truthy(o) ==> r == d
  {
    if Truthy(o) then o.value else d
  }

  /** `o ?? d` on an Option. */
  function GetOr<T>(o: Option<T>, d: T): T {
    match o
    case Some(v) => v
    case None => d
  }

  datatype Product = Bma | FitHub | TrainerApp | SmartStrength | UnknownProduct

  datatype CompletionMode = Occurrence | Counter

  datatype TimeRangeType = NoDeadline | Absolute | WithPrevious

  datatype TimeUnit = Days | Weeks | Months

  datatype ReminderChannel = Push | Email | Trainer | Webhook

  datatype ReminderFrequency = Once | EveryXDays

  datatype NodeType = StartNode | ActionNode | DecisionNode | MergeNode | EndNode

  datatype ActionStatus = NotDone | InProgress | Done | Overdue

  /** One record with fields that are meaningful only for some `kind`s, as in
      the source: the builder's handlers keep the fields of the other kinds. */
  datatype TimeRange = TimeRange(
    kind: TimeRangeType,
    durationDays: Option<int>,
    durationUnit: Option<TimeUnit>,
    offsetDays: Option<int>,
    offsetUnit: Option<TimeUnit>)

  const NoTimeRange: TimeRange := TimeRange(NoDeadline, None, None, None, None)

  datatype Reminder = Reminder(
    id: string,
    channel: ReminderChannel,
    frequencyType: ReminderFrequency,
    frequencyDays: Option<int>,
    order: int)

  datatype Action = Action(
    id: string,
    actionTypeId: string,
    eventType: string,
    completionMode: CompletionMode,
    requiredCount: Option<int>,
    supportedProducts: seq<Product>,
    product: Product,
    visibleInChecklist: bool,
    supportsGuidance: bool,
    guidanceEnabled: bool,
    timeRange: TimeRange,
    reminders: seq<Reminder>)

  /** An action without its id, as the action form hands it to the journey store. */
  datatype ActionData = ActionData(
    actionTypeId: string,
    eventType: string,
    completionMode: CompletionMode,
    requiredCount: Option<int>,
    supportedProducts: seq<Product>,
    product: Product,
    visibleInChecklist: bool,
    supportsGuidance: bool,
    guidanceEnabled: bool,
    timeRange: TimeRange,
    reminders: seq<Reminder>)

  /** `{ ...data, id }`. */
  function WithId(d: ActionData, id: string): (a: Action)
    ensures a.id == id && a.actionTypeId == d.actionTypeId && a.eventType == d.eventType
    ensures a.completionMode == d.completionMode && a.requiredCount == d.requiredCount
    ensures a.timeRange == d.timeRange && a.reminders == d.reminders && a.product == d.product
    ensures a.supportedProducts == d.supportedProducts && a.visibleInChecklist == d.visibleInChecklist
    ensures a.supportsGuidance == d.supportsGuidance && a.guidanceEnabled == d.guidanceEnabled
  {
    Action(id, d.actionTypeId, d.eventType, d.completionMode, d.requiredCount,
           d.supportedProducts, d.product, d.visibleInChecklist, d.supportsGuidance,
           d.guidanceEnabled, d.timeRange, d.reminders)
  }

  datatype JourneyNode = JourneyNode(
    id: string,
    nodeType: NodeType,
    actionId: Option<string>,
    position: int)

  datatype Journey = Journey(
    id: string,
    name: string,
    isDefault: bool,
    nodes: seq<JourneyNode>,
    actions: seq<Action>,
    createdAt: Instant,
    updatedAt: Instant)

  /** The simulator's runtime state of one action: the copy of the action it
      was built from plus status, count, deadline, completion and anchor. */
  datatype ActionInstance = ActionInstance(
    action: Action,
    status: ActionStatus,
    currentCount: int,
    deadline: Option<Instant>,
    completedAt: Option<Instant>,
    entryActionCompletedAt: Option<Instant>)
  {
    function Id(): string { action.id }
  }

  datatype Event = Event(
    id: string,
    eventType: string,
    product: Product,
    occurredAt: Instant)

  datatype NotificationType = PushNotification | EmailNotification

  datatype Notification = Notification(
    id: string,
    kind: NotificationType,
    actionId: string,
    actionTitle: string,
    message: string,
    timestamp: Instant,
    read: bool)

  datatype ActionLibraryItem = ActionLibraryItem(
    id: string,
    title: string,
    eventType: string,
    completionMode: CompletionMode,
    supportedProducts: seq<Product>,
    supportsGuidance: bool,
    defaultGuidanceEnabled: bool)
}
