/** The slicer's interaction behaviour: discrete selection (clicking items)
    and range selection (the numeric range) are kept exclusive, and a
    change of range is sent to the host as an advanced "And" filter of a
    GreaterThan and a LessThan condition. */
module Behavior {
  import opened Values
  import opened ScalableRanges
  import opened Interactivity

  /** The callbacks the visual hands to its behaviour: where the slicer's
      column lives. Applying a filter is recorded by the behaviour. */
  datatype Callbacks = Callbacks(filterColumnTarget: Target)

  /** The conditions of a range filter: `GreaterThan min` when `min` is
      truthy, then `LessThan max` when `max` is truthy. */
  predicate ConditionsFor(value: ValueRange, conditions: seq<Condition>) {
    && |conditions| == (if Truthy(value.min) then 1 else 0) + (if Truthy(value.max) then 1 else 0)
    && (Truthy(value.min) ==> conditions[0] == Condition(OperatorGreaterThan, value.min.value))
    && (Truthy(value.max) ==> conditions[|conditions| - 1] == Condition(OperatorLessThan, value.max.value))
  }

  /** The filter a range change sends to the host: none when both ends are
      falsy, otherwise an "And" filter on the slicer's column. */
  function RangeFilter(value: ValueRange, target: Target): (f: Option<Filter>)
    ensures f.None? <==> !Truthy(value.min) && !Truthy(value.max)
    ensures f.Some? ==>
      && f.value.AdvancedFilter?
      && f.value.target == Some(target)
      && f.value.logicalOperator == LogicalAnd
      && f.value.conditions.Some?
      && ConditionsFor(value, f.value.conditions.value)
  {
    if !Truthy(value.min) && !Truthy(value.max) then None
    else
      var lower := if Truthy(value.min) then [Condition(OperatorGreaterThan, value.min.value)] else [];
      var upper := if Truthy(value.max) then [Condition(OperatorLessThan, value.max.value)] else [];
      Some(AdvancedFilter(Some(target), LogicalAnd, Some(lower + upper)))
  }

  /** The conditions of a range are determined by the range: two ranges with
      the same truthy ends give the same conditions. */
  lemma {:induction false} ConditionsForUnique(value: ValueRange, c1: seq<Condition>, c2: seq<Condition>)
    requires ConditionsFor(value, c1) && ConditionsFor(value, c2)
    ensures c1 == c2
  {
    if Truthy(value.min) && Truthy(value.max) {
      assert c1[0] == c2[0] && c1[1] == c2[1];
    } else if Truthy(value.min) {
      assert c1[0] == c2[0];
    } else if Truthy(value.max) {
      assert c1[0] == c2[0];
    }
  }

  // ---- the callbacks as the range change names them ----

  /** The callback names that occur on either side: the visual's callback
      object defines the first three; the range change calls the last two. */
  datatype CallbackName =
    | ApplyFilter
    | GetFilterColumnTarget
    | GetPersistedSelectionState
    | ApplyAdvancedFilter
    | GetAdvancedFilterColumnTarget

  /** The callbacks the visual's callback object defines. */
  const DefinedCallbacks: set<CallbackName> := {ApplyFilter, GetFilterColumnTarget, GetPersistedSelectionState}

  /** What a range change leads to. */
  datatype RangeChangeOutcome = NoFilter | Applied(filter: Filter) | CallbackMissing(name: CallbackName)

  /** The range change as its code reads: with a truthy end it first asks
      `getAdvancedFilterColumnTarget` for the target and then hands the
      filter to `applyAdvancedFilter`; calling a callback the object does
      not define fails before any filter reaches the host. */
  function RangeChangeAsWritten(value: ValueRange, target: Target, defined: set<CallbackName>): (outcome: RangeChangeOutcome)
    ensures !Truthy(value.min) && !Truthy(value.max) ==> outcome == NoFilter
    ensures Truthy(value.min) || Truthy(value.max) ==>
      (outcome.Applied? <==> GetAdvancedFilterColumnTarget in defined && ApplyAdvancedFilter in defined)
    ensures outcome.Applied? ==> Some(outcome.filter) == RangeFilter(value, target)
  {
    if !Truthy(value.min) && !Truthy(value.max) then NoFilter
    else if GetAdvancedFilterColumnTarget !in defined then CallbackMissing(GetAdvancedFilterColumnTarget)
    else if ApplyAdvancedFilter !in defined then CallbackMissing(ApplyAdvancedFilter)
    else Applied(RangeFilter(value, target).value)
  }

  /** With the callbacks the visual defines, no range with a truthy end
      ever reaches the host as written. */
  lemma RangeChangeAsWrittenFails(value: ValueRange, target: Target)
    requires Truthy(value.min) || Truthy(value.max)
    ensures RangeChangeAsWritten(value, target, DefinedCallbacks) == CallbackMissing(GetAdvancedFilterColumnTarget)
  {
  }

  /** The background of an item: the selected colour for an item that is
      selected or inside the range, the unselected colour otherwise. */
  predicate StyledAs(settings: Settings, point: DataPoint, color: string) {
    if point.selected || point.isSelectedRangePoint
    then color == settings.selectedColor
    else color == settings.unselectedColor
  }

  /** `styleSlicerInputs`: one background per item, in order. */
  method StyleItems(settings: Settings, points: seq<DataPoint>) returns (colors: seq<string>)
    ensures |colors| == |points|
    ensures forall i | 0 <= i < |points| :: StyledAs(settings, points[i], colors[i])
  {
    colors := [];
    for i := 0 to |points|
      invariant |colors| == i
      invariant forall j | 0 <= j < i :: StyledAs(settings, points[j], colors[j])
    {
      var color := if points[i].selected || points[i].isSelectedRangePoint
        then settings.selectedColor else settings.unselectedColor;
      colors := colors + [color];
    }
  }

  /** With distinct colours, an item is drawn selected exactly when it is
      selected or inside the range. */
  lemma StyledSelectedIff(settings: Settings, point: DataPoint, color: string)
    requires settings.selectedColor != settings.unselectedColor
    requires StyledAs(settings, point, color)
    ensures color == settings.selectedColor <==> point.selected || point.isSelectedRangePoint
  {
  }

  class SelectionBehavior {
    /** The discrete selection model; null until events are bound. */
    var selectionHandler: SelectionHandler?
    /** The range selection model. */
    var scalableRange: ScalableRange
    var dataPoints: seq<DataPoint>
    var slicerSettings: Option<Settings>
    const callbacks: Callbacks
    /** The filters handed to the host's apply callback, oldest first. */
    var appliedFilters: seq<Filter>

    constructor(callbacks: Callbacks)
      ensures fresh(scalableRange)
      ensures scalableRange.range == Unbounded && scalableRange.domain == Unbounded
      ensures !scalableRange.IsActive()
      ensures selectionHandler == null && this.callbacks == callbacks
      ensures dataPoints == [] && slicerSettings == None && appliedFilters == []
    {
      scalableRange := new ScalableRange();
      this.callbacks := callbacks;
      selectionHandler := null;
      dataPoints := [];
      slicerSettings := None;
      appliedFilters := [];
    }

    /** Stores the options' data points and settings and the handler that
        item clicks are sent to. */
    method BindEvents(dataPoints: seq<DataPoint>, slicerSettings: Settings, selectionHandler: SelectionHandler)
      modifies this
      ensures this.dataPoints == dataPoints && this.slicerSettings == Some(slicerSettings)
      ensures this.selectionHandler == selectionHandler
      ensures scalableRange == old(scalableRange) && appliedFilters == old(appliedFilters)
    {
      this.dataPoints := dataPoints;
      this.slicerSettings := Some(slicerSettings);
      this.selectionHandler := selectionHandler;
    }

    /** A click on an item: the range selection is dropped, then the item is
        toggled in the discrete selection. */
    method Click(dataPoint: DataPoint)
      requires selectionHandler != null
      modifies this, selectionHandler
      ensures fresh(scalableRange) && scalableRange.range == Unbounded && !scalableRange.IsActive()
      ensures scalableRange.domain == Unbounded
      ensures selectionHandler == old(selectionHandler)
      ensures selectionHandler.selectedIds == Toggle(old(selectionHandler.selectedIds), dataPoint.identity)
      ensures appliedFilters == old(appliedFilters) && dataPoints == old(dataPoints)
      ensures slicerSettings == old(slicerSettings)
    {
      ClearRangeSelection();
      selectionHandler.HandleSelection(dataPoint);
    }

    /** Clears the discrete selection, if a handler is bound. */
    method ClearAllDiscreteSelections()
      modifies selectionHandler
      ensures selectionHandler != null ==> selectionHandler.selectedIds == []
    {
      if selectionHandler != null {
        selectionHandler.HandleClearSelection();
      }
    }

    /** Replaces the range selection by a fresh, inactive one. */
    method ClearRangeSelection()
      modifies this
      ensures fresh(scalableRange)
      ensures scalableRange.range == Unbounded && scalableRange.domain == Unbounded
      ensures !scalableRange.IsActive()
      ensures selectionHandler == old(selectionHandler) && dataPoints == old(dataPoints)
      ensures slicerSettings == old(slicerSettings) && appliedFilters == old(appliedFilters)
    {
      scalableRange := new ScalableRange();
    }

    /** The item backgrounds under the bound settings. */
    method StyleSlicerInputs(points: seq<DataPoint>) returns (colors: seq<string>)
      requires slicerSettings.Some?
      ensures |colors| == |points|
      ensures forall i | 0 <= i < |points| :: StyledAs(slicerSettings.value, points[i], colors[i])
    {
      colors := StyleItems(slicerSettings.value, points);
    }

    /** After the range changed: the discrete selection is cleared, and
        unless both ends of the range are falsy, one "And" filter of its
        conditions is applied. */
    method UpdateOnRangeSelectonChange()
      modifies this, selectionHandler
      ensures selectionHandler == old(selectionHandler) && scalableRange == old(scalableRange)
      ensures selectionHandler != null ==> selectionHandler.selectedIds == []
      ensures scalableRange.range == old(scalableRange.range)
      ensures dataPoints == old(dataPoints) && slicerSettings == old(slicerSettings)
      ensures var f := RangeFilter(scalableRange.range, callbacks.filterColumnTarget);
        appliedFilters == old(appliedFilters) + (if f.Some? then [f.value] else [])
    {
      ClearAllDiscreteSelections();
      var value := scalableRange.GetValue();
      if !Truthy(value.min) && !Truthy(value.max) {
        return;
      }
      var conditions: seq<Condition> := [];
      var target := callbacks.filterColumnTarget;
      if Truthy(value.min) {
        conditions := conditions + [Condition(OperatorGreaterThan, value.min.value)];
      }
      if Truthy(value.max) {
        conditions := conditions + [Condition(OperatorLessThan, value.max.value)];
      }
      var filter := AdvancedFilter(Some(target), LogicalAnd, Some(conditions));
      ConditionsForUnique(value, conditions, RangeFilter(value, target).value.conditions.value);
      appliedFilters := appliedFilters + [filter];
    }
  }
}
