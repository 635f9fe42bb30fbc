/** The action editor dialog (src/components/builder/ActionForm.tsx): the form
    state, the defaults a library choice brings, validation, the action the
    save button hands to the journey store, and the reminder list's add button.
    React state setters become field assignments. Each effect runs inside the
    method whose state change makes its dependencies differ; the class keeps the
    last rendered dependencies so the library effect fires exactly then. */
module ActionForm {
  import opened Types
  import AL = ActionLibrary

  /** `selectedLibraryItem`: none while the type id is empty. */
  function SelectedLibraryItem(actionTypeId: string): (r: Option<ActionLibraryItem>)
    ensures actionTypeId == "" ==> r.None?
    ensures r.Some? ==> r.value.id == actionTypeId && r.value in AL.GetAllActionLibraryItems()
  {
    if actionTypeId == "" then None else AL.GetActionLibraryItem(actionTypeId)
  }

  /** The library item's first product, or `BMA` when it lists none. */
  function DefaultProduct(item: ActionLibraryItem): (p: Product)
    ensures |item.supportedProducts| > 0 ==> p in item.supportedProducts
    ensures |item.supportedProducts| == 0 ==> p == Bma
  {
    if |item.supportedProducts| > 0 then item.supportedProducts[0] else Bma
  }

  /** `requiredCount` after choosing an item: 1 for counters, nothing otherwise. */
  function DefaultRequiredCount(item: ActionLibraryItem): (r: Option<int>)
    ensures r.Some? <==> item.completionMode == Counter
    ensures r.Some? ==> r.value == 1
  {
    if item.completionMode == Counter then Some(1) else None
  }

  /** Every library item lists a product, so choosing one always selects a product it supports. */
  lemma LibraryDefaultsSupported(item: ActionLibraryItem)
    requires item in AL.GetAllActionLibraryItems()
    ensures DefaultProduct(item) in item.supportedProducts
  {
  }

  /** The messages `validateForm` records, keyed by field. */
  function FormErrors(actionTypeId: string, requiredCount: Option<int>, timeRange: TimeRange): (errors: map<string, string>)
    ensures "actionTypeId" in errors <==> actionTypeId == ""
    ensures "requiredCount" in errors <==>
              var item := SelectedLibraryItem(actionTypeId);
              item.Some? && item.value.completionMode == Counter && (requiredCount.None? || requiredCount.value < 1)
    ensures "timeRange" in errors <==>
              (timeRange.kind == Absolute && (timeRange.durationDays.None? || timeRange.durationDays.value < 1))
              || (timeRange.kind == WithPrevious && (timeRange.offsetDays.None? || timeRange.offsetDays.value < 1))
    ensures errors.Keys <= {"actionTypeId", "requiredCount", "timeRange"}
  {
    var item := SelectedLibraryItem(actionTypeId);
    var e1: map<string, string> := if actionTypeId == "" then map["actionTypeId" := "Please select an action type"] else map[];
    var e2 := if item.Some? && item.value.completionMode == Counter && (!Truthy(requiredCount) || requiredCount.value < 1)
              then e1["requiredCount" := "Required count must be at least 1"] else e1;
    var e3 := if timeRange.kind == Absolute && (!Truthy(timeRange.durationDays) || timeRange.durationDays.value < 1)
              then e2["timeRange" := "Duration must be at least 1 day"] else e2;
    var e4 := if timeRange.kind == WithPrevious && (!Truthy(timeRange.offsetDays) || timeRange.offsetDays.value < 1)
              then e3["timeRange" := "Offset must be at least 1 day"] else e3;
    e4
  }

  /** The form passes exactly when a type is chosen, a counter needs at least one
      event, and a dated range is at least one day long. */
  lemma ValidIff(actionTypeId: string, requiredCount: Option<int>, timeRange: TimeRange)
    ensures |FormErrors(actionTypeId, requiredCount, timeRange)| == 0 <==>
              actionTypeId != ""
              && (SelectedLibraryItem(actionTypeId).Some? && SelectedLibraryItem(actionTypeId).value.completionMode == Counter
                  ==> requiredCount.Some? && requiredCount.value >= 1)
              && (timeRange.kind == Absolute ==> timeRange.durationDays.Some? && timeRange.durationDays.value >= 1)
              && (timeRange.kind == WithPrevious ==> timeRange.offsetDays.Some? && timeRange.offsetDays.value >= 1)
  {
    var errors := FormErrors(actionTypeId, requiredCount, timeRange);
    if |errors| == 0 {
      assert "actionTypeId" !in errors && "requiredCount" !in errors && "timeRange" !in errors;
    } else {
      var k :| k in errors;
      assert k == "actionTypeId" || k == "requiredCount" || k == "timeRange";
    }
  }

  /** A "with previous" range with offset 0 (an immediate follow-up) is rejected. */
  lemma ZeroOffsetRejected(actionTypeId: string, requiredCount: Option<int>, timeRange: TimeRange)
    requires timeRange.kind == WithPrevious && timeRange.offsetDays == Some(0)
    ensures "timeRange" in FormErrors(actionTypeId, requiredCount, timeRange)
  {
  }

  /** The action `handleSave` builds from the form and its library item. */
  function BuildAction(actionTypeId: string, item: ActionLibraryItem, product: Product, visibleInChecklist: bool,
                       guidanceEnabled: bool, requiredCount: Option<int>, timeRange: TimeRange,
                       reminders: seq<Reminder>): (a: ActionData)
    ensures a.actionTypeId == actionTypeId && a.product == product && a.visibleInChecklist == visibleInChecklist
    ensures a.eventType == item.eventType && a.completionMode == item.completionMode
    ensures a.supportedProducts == item.supportedProducts && a.supportsGuidance == item.supportsGuidance
    ensures a.requiredCount == (if item.completionMode == Counter then requiredCount else None)
    ensures a.guidanceEnabled <==> item.supportsGuidance && guidanceEnabled
    ensures a.timeRange == timeRange && a.reminders == reminders
  {
    ActionData(actionTypeId, item.eventType, item.completionMode,
               if item.completionMode == Counter then requiredCount else None,
               item.supportedProducts, product, visibleInChecklist, item.supportsGuidance,
               if item.supportsGuidance then guidanceEnabled else false, timeRange, reminders)
  }

  /** An action built from a form that passed validation is well formed: a known
      type, a counter target of at least 1 exactly for counters, and a dated
      range of at least one day. */
  lemma ValidatedActionWellFormed(actionTypeId: string, product: Product, visibleInChecklist: bool,
                                  guidanceEnabled: bool, requiredCount: Option<int>, timeRange: TimeRange,
                                  reminders: seq<Reminder>)
    requires SelectedLibraryItem(actionTypeId).Some?
    requires |FormErrors(actionTypeId, requiredCount, timeRange)| == 0
    ensures var a := BuildAction(actionTypeId, SelectedLibraryItem(actionTypeId).value, product, visibleInChecklist,
                                 guidanceEnabled, requiredCount, timeRange, reminders);
            AL.GetActionLibraryItem(a.actionTypeId).Some?
            && (a.requiredCount.Some? <==> a.completionMode == Counter)
            && (a.requiredCount.Some? ==> a.requiredCount.value >= 1)
            && (a.timeRange.kind == Absolute ==> a.timeRange.durationDays.Some? && a.timeRange.durationDays.value >= 1)
            && (a.timeRange.kind == WithPrevious ==> a.timeRange.offsetDays.Some? && a.timeRange.offsetDays.value >= 1)
  {
    ValidIff(actionTypeId, requiredCount, timeRange);
  }

  /** The reminder `handleAddReminder` appends: a one-off push notification. */
  function NewReminder(id: string, order: int): (r: Reminder)
    ensures r.id == id && r.channel == Push && r.frequencyType == Once && r.frequencyDays.None? && r.order == order
  {
    Reminder(id, Push, Once, None, order)
  }

  /** The loaded type id: the edited action's, or none for a blank form. */
  function OpenedTypeId(existing: Option<Action>): string {
    if existing.Some? then existing.value.actionTypeId else ""
  }

  /** Whose library defaults the form shows after opening on `existing`, when
      `shown` was the selected item and `previous` the edited action of the last
      render, and `loaded` is the item of the type id the open effect loads. The
      open effect and the library effect commit together, and the library
      effect's setters run last: it fires in that first commit when the edited
      action changed, with the item the form showed before; it fires again in
      the next render when the loaded item differs. The later firing wins. */
  function OpenDefaults(shown: Option<ActionLibraryItem>, loaded: Option<ActionLibraryItem>,
                        previous: Option<Action>, existing: Option<Action>): Option<ActionLibraryItem>
  {
    if loaded != shown && loaded.Some? then loaded
    else if existing != previous && shown.Some? then shown
    else None
  }

  /** Opening the dialog on an action whose type names a library item shows
      that item's defaults for product, guidance and count, not the action's
      own, unless the same action was already loaded with that item showing. */
  lemma EditedActionTakesItemDefaults(shown: Option<ActionLibraryItem>, previous: Option<Action>, a: Action)
    requires SelectedLibraryItem(a.actionTypeId).Some?
    requires shown != SelectedLibraryItem(a.actionTypeId) || previous != Some(a)
    ensures OpenDefaults(shown, SelectedLibraryItem(OpenedTypeId(Some(a))), previous, Some(a))
         == SelectedLibraryItem(a.actionTypeId)
  {
  }

  /** Reopening on the action already loaded, with its item still showing, fires
      no library effect: the action's own values stay. */
  lemma ReopenKeepsActionValues(a: Action)
    ensures var item := SelectedLibraryItem(a.actionTypeId);
            OpenDefaults(item, SelectedLibraryItem(OpenedTypeId(Some(a))), Some(a), Some(a)).None?
  {
  }

  /** A render in which the parent swaps the prop from an action to none fires
      the library effect with the item shown before: the blank values give way to
      that item's defaults, although no type is selected any more. */
  lemma ClearedPropKeepsItemDefaults(shown: ActionLibraryItem, previous: Action)
    ensures SelectedLibraryItem(OpenedTypeId(None)).None?
    ensures OpenDefaults(Some(shown), SelectedLibraryItem(OpenedTypeId(None)), Some(previous), None) == Some(shown)
  {
  }

  /** Opening a blank form when the last render already had no action and no
      item fires no library effect: the blank values stay. A parent that clears
      the edited action when it closes the dialog reaches this state before the
      next opening. */
  lemma BlankReopenResets()
    ensures var none := SelectedLibraryItem(OpenedTypeId(None));
            none.None? && OpenDefaults(none, none, None, None).None?
  {
  }

  /** The dialog's state. `existingAction` is the prop of the last render and
      `shownItem` the `selectedLibraryItem` of the last render, which the
      library effect compares against. */
  class ActionFormState {
    var actionTypeId: string
    var product: Product
    var visibleInChecklist: bool
    var guidanceEnabled: bool
    var requiredCount: Option<int>
    var timeRange: TimeRange
    var reminders: seq<Reminder>
    var validationErrors: map<string, string>
    var existingAction: Option<Action>
    var shownItem: Option<ActionLibraryItem>

    /** Between renders, the remembered item is the one the type id selects. */
    predicate Valid()
      reads this
    {
      shownItem == SelectedLibraryItem(actionTypeId)
    }

    /** The initial `useState` values. On mount the library effect sees no item
        and does nothing. */
    constructor ()
      ensures actionTypeId == "" && product == Bma && visibleInChecklist && !guidanceEnabled
      ensures requiredCount.None? && timeRange == NoTimeRange && reminders == [] && validationErrors == map[]
      ensures existingAction.None? && Valid()
    {
      actionTypeId := "";
      product := Bma;
      visibleInChecklist := true;
      guidanceEnabled := false;
      requiredCount := None;
      timeRange := NoTimeRange;
      reminders := [];
      validationErrors := map[];
      existingAction := None;
      shownItem := None;
    }

    /** The open effect: load the action being edited, or reset to a blank form,
        and clear the errors. */
    method OpenEffect(existing: Option<Action>)
      modifies this
      ensures existing.Some? ==>
                var a := existing.value;
                actionTypeId == a.actionTypeId && product == a.product && visibleInChecklist == a.visibleInChecklist
                && guidanceEnabled == a.guidanceEnabled && requiredCount == a.requiredCount
                && timeRange == a.timeRange && reminders == a.reminders
      ensures existing.None? ==>
                actionTypeId == "" && product == Bma && visibleInChecklist && !guidanceEnabled
                && requiredCount.None? && timeRange == NoTimeRange && reminders == []
      ensures validationErrors == map[]
      ensures existingAction == old(existingAction) && shownItem == old(shownItem)
    {
      if existing.Some? {
        var a := existing.value;
        actionTypeId := a.actionTypeId;
        product := a.product;
        visibleInChecklist := a.visibleInChecklist;
        guidanceEnabled := a.guidanceEnabled;
        requiredCount := a.requiredCount;
        timeRange := a.timeRange;
        reminders := a.reminders;
      } else {
        actionTypeId := "";
        product := Bma;
        visibleInChecklist := true;
        guidanceEnabled := false;
        requiredCount := None;
        timeRange := NoTimeRange;
        reminders := [];
      }
      validationErrors := map[];
    }

    /** The dialog opens on `existing` (or on a blank form): the open effect
        loads the action or resets the form; in the same commit and in the
        render after it, the library effect may overwrite the product, the
        guidance switch and the count with an item's defaults. */
    method Open(existing: Option<Action>)
      modifies this
      ensures Valid() && existingAction == existing
      ensures actionTypeId == OpenedTypeId(existing) && validationErrors == map[]
      ensures existing.Some? ==>
                visibleInChecklist == existing.value.visibleInChecklist
                && timeRange == existing.value.timeRange && reminders == existing.value.reminders
      ensures existing.None? ==> visibleInChecklist && timeRange == NoTimeRange && reminders == []
      ensures var applied := OpenDefaults(old(shownItem), shownItem, old(existingAction), existing);
              applied.Some? ==>
                product == DefaultProduct(applied.value)
                && guidanceEnabled == applied.value.defaultGuidanceEnabled
                && requiredCount == DefaultRequiredCount(applied.value)
      ensures OpenDefaults(old(shownItem), shownItem, old(existingAction), existing).None? ==>
                if existing.Some? then
                  product == existing.value.product && guidanceEnabled == existing.value.guidanceEnabled
                  && requiredCount == existing.value.requiredCount
                else
                  product == Bma && !guidanceEnabled && requiredCount.None?
    {
      // The render with the new prop: both effects commit, the library effect last.
      var renderedItem := shownItem;
      var propChanged := existing != existingAction;
      existingAction := existing;
      OpenEffect(existing);
      if propChanged && renderedItem.Some? {
        LibraryItemEffect(renderedItem.value);
      }
      // The render with the loaded state.
      LibraryRender();
    }

    /** A render after a state change: the library effect fires when the
        selected item differs from the one the last render showed. */
    method LibraryRender()
      modifies this
      ensures Valid()
      ensures shownItem != old(shownItem) && shownItem.Some? ==>
                product == DefaultProduct(shownItem.value)
                && guidanceEnabled == shownItem.value.defaultGuidanceEnabled
                && requiredCount == DefaultRequiredCount(shownItem.value)
      ensures !(shownItem != old(shownItem) && shownItem.Some?) ==>
                product == old(product) && guidanceEnabled == old(guidanceEnabled)
                && requiredCount == old(requiredCount)
      ensures actionTypeId == old(actionTypeId) && visibleInChecklist == old(visibleInChecklist)
      ensures timeRange == old(timeRange) && reminders == old(reminders) && validationErrors == old(validationErrors)
      ensures existingAction == old(existingAction)
    {
      var item := SelectedLibraryItem(actionTypeId);
      if item != shownItem && item.Some? {
        LibraryItemEffect(item.value);
      }
      shownItem := item;
    }

    /** The library-selection effect's body for a selected item: the product,
        the guidance switch and the counter target take the item's defaults. */
    method LibraryItemEffect(item: ActionLibraryItem)
      modifies this
      ensures product == DefaultProduct(item)
      ensures guidanceEnabled == item.defaultGuidanceEnabled && requiredCount == DefaultRequiredCount(item)
      ensures actionTypeId == old(actionTypeId) && visibleInChecklist == old(visibleInChecklist)
      ensures timeRange == old(timeRange) && reminders == old(reminders) && validationErrors == old(validationErrors)
      ensures existingAction == old(existingAction) && shownItem == old(shownItem)
    {
      product := DefaultProduct(item);
      guidanceEnabled := item.defaultGuidanceEnabled;
      requiredCount := DefaultRequiredCount(item);
    }

    /** Clicking a library card: choose its id and clear the type error; the
        render after it runs the library effect when the selected item changed. */
    method ChooseItem(id: string)
      requires Valid()
      modifies this
      ensures Valid() && actionTypeId == id && existingAction == old(existingAction)
      ensures validationErrors == old(validationErrors)["actionTypeId" := ""]
      ensures id != old(actionTypeId) && SelectedLibraryItem(id).Some? ==>
                product == DefaultProduct(SelectedLibraryItem(id).value)
                && guidanceEnabled == SelectedLibraryItem(id).value.defaultGuidanceEnabled
                && requiredCount == DefaultRequiredCount(SelectedLibraryItem(id).value)
      ensures id == old(actionTypeId) || SelectedLibraryItem(id).None? ==>
                product == old(product) && guidanceEnabled == old(guidanceEnabled)
                && requiredCount == old(requiredCount)
      ensures visibleInChecklist == old(visibleInChecklist) && timeRange == old(timeRange) && reminders == old(reminders)
    {
      actionTypeId := id;
      validationErrors := validationErrors["actionTypeId" := ""];
      LibraryRender();
    }

    /** `handleAddReminder`. */
    method AddReminder(freshId: string)
      modifies this
      ensures existingAction == old(existingAction) && shownItem == old(shownItem)
      ensures reminders == old(reminders) + [NewReminder(freshId, |old(reminders)|)]
      ensures actionTypeId == old(actionTypeId) && product == old(product) && timeRange == old(timeRange)
      ensures requiredCount == old(requiredCount) && validationErrors == old(validationErrors)
      ensures visibleInChecklist == old(visibleInChecklist) && guidanceEnabled == old(guidanceEnabled)
    {
      reminders := reminders + [NewReminder(freshId, |reminders|)];
    }

    /** The time-range editor's change handler: store the range, clear its error,
        and drop every reminder when the range is removed. */
    method ChangeTimeRange(newTimeRange: TimeRange)
      modifies this
      ensures existingAction == old(existingAction) && shownItem == old(shownItem)
      ensures timeRange == newTimeRange
      ensures validationErrors == old(validationErrors)["timeRange" := ""]
      ensures reminders == (if newTimeRange.kind == NoDeadline then [] else old(reminders))
      ensures actionTypeId == old(actionTypeId) && product == old(product) && requiredCount == old(requiredCount)
      ensures visibleInChecklist == old(visibleInChecklist) && guidanceEnabled == old(guidanceEnabled)
    {
      timeRange := newTimeRange;
      validationErrors := validationErrors["timeRange" := ""];
      if newTimeRange.kind == NoDeadline {
        reminders := [];
      }
    }

    /** `validateForm`: record the errors and report whether there are none. */
    method ValidateForm() returns (ok: bool)
      modifies this
      ensures existingAction == old(existingAction) && shownItem == old(shownItem)
      ensures validationErrors == FormErrors(actionTypeId, requiredCount, timeRange)
      ensures ok <==> |validationErrors| == 0
      ensures actionTypeId == old(actionTypeId) && product == old(product) && requiredCount == old(requiredCount)
      ensures timeRange == old(timeRange) && reminders == old(reminders)
      ensures visibleInChecklist == old(visibleInChecklist) && guidanceEnabled == old(guidanceEnabled)
    {
      validationErrors := FormErrors(actionTypeId, requiredCount, timeRange);
      ok := |validationErrors| == 0;
    }

    /** `handleSave`: nothing without a library item or while actions load;
        otherwise validate, and on success hand over the built action. */
    method HandleSave(isLoadingActions: bool) returns (saved: Option<ActionData>)
      modifies this
      ensures existingAction == old(existingAction) && shownItem == old(shownItem)
      ensures SelectedLibraryItem(actionTypeId).None? || isLoadingActions ==>
                saved.None? && validationErrors == old(validationErrors)
      ensures SelectedLibraryItem(actionTypeId).Some? && !isLoadingActions ==>
                validationErrors == FormErrors(actionTypeId, requiredCount, timeRange)
                && (saved.Some? <==> |validationErrors| == 0)
                && (saved.Some? ==> saved.value == BuildAction(actionTypeId, SelectedLibraryItem(actionTypeId).value,
                                                              product, visibleInChecklist, guidanceEnabled,
                                                              requiredCount, timeRange, reminders))
      ensures actionTypeId == old(actionTypeId) && product == old(product) && requiredCount == old(requiredCount)
      ensures timeRange == old(timeRange) && reminders == old(reminders)
      ensures visibleInChecklist == old(visibleInChecklist) && guidanceEnabled == old(guidanceEnabled)
    {
      var item := SelectedLibraryItem(actionTypeId);
      if item.None? || isLoadingActions {
        return None;
      }
      var ok := ValidateForm();
      if !ok {
        return None;
      }
      saved := Some(BuildAction(actionTypeId, item.value, product, visibleInChecklist, guidanceEnabled,
                                requiredCount, timeRange, reminders));
    }
  }
}
