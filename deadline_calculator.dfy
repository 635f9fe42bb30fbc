/** The simulator's entry points to deadlines and statuses
    (src/lib/deadlineCalculator.ts): thin wrappers over ChecklistUtils. */
module DeadlineCalculator {
  import opened Types
  import CU = ChecklistUtils

  /** `calculateDeadline`, re-exported unchanged. */
  function CalculateDeadline(action: Action, entryCompletedAt: Instant,
                             previousActionCompletedAt: Option<Instant>): (r: Option<Instant>)
    ensures r == CU.CalculateDeadline(action, entryCompletedAt, previousActionCompletedAt)
  {
    CU.CalculateDeadline(action, entryCompletedAt, previousActionCompletedAt)
  }

  /** `calculateActionStatus`: the classifier applied to the instance's own
      stored deadline, completion time and count. */
  function CalculateActionStatus(inst: ActionInstance, currentTime: Instant): (r: ActionStatus)
    ensures r == CU.GetActionStatus(inst.action, inst.deadline, currentTime, inst.completedAt,
                                    Some(inst.currentCount))
  {
    CU.GetActionStatus(inst.action, inst.deadline, currentTime, inst.completedAt, Some(inst.currentCount))
  }

  /** A completed instance is `DONE` at every time. */
  lemma CompletedInstanceIsDone(inst: ActionInstance, t: Instant)
    requires inst.completedAt.Some?
    ensures CalculateActionStatus(inst, t) == Done
  {
  }

  /** An instance without a stored deadline is never `OVERDUE`. */
  lemma NoDeadlineNeverOverdue(inst: ActionInstance, t: Instant)
    requires inst.deadline.None?
    ensures CalculateActionStatus(inst, t) != Overdue
  {
  }
}
