/** Conversion of the first category column into slicer data points:
    each value is tagged with its membership in an "In" filter and in the
    active numeric range, and the range's domain is then reset to the
    values' extent. */
module SlicerConverter {
  import opened Values
  import opened ScalableRanges

  /** A filter that selects `text`: an "In" filter whose values hold that
      exact string. */
  predicate SelectsText(filter: Filter, text: string) {
    filter.BasicFilter? && filter.operator == OperatorIn &&
    filter.values.Some? && Text(text) in filter.values.value
  }

  /** The `reduce` over the JSON filters: `acc || <filter selects text>`. */
  function InFilterSelected(filters: seq<Filter>, text: string): (selected: bool)
    ensures selected <==> exists i | 0 <= i < |filters| :: SelectsText(filters[i], text)
  {
    if filters == [] then false
    else
      var last := |filters| - 1;
      assert forall i | 0 <= i < last :: filters[..last][i] == filters[i];
      InFilterSelected(filters[..last], text) || SelectsText(filters[last], text)
  }

  /** Strict range membership: each bound that is present (0 included)
      must lie strictly on its side of the number. */
  function IsNumberWithinRange(theNumber: real, subRange: ValueRange): (within: bool)
    ensures within <==>
      (subRange.min != None ==> subRange.min.value < theNumber) &&
      (subRange.max != None ==> theNumber < subRange.max.value)
  {
    if subRange.min.Some? && subRange.min.value >= theNumber then false
    else if subRange.max.Some? && subRange.max.value <= theNumber then false
    else true
  }

  class SampleSlicerConverter {
    var dataPoints: seq<DataPoint>
    const categoryValues: Option<seq<real>>
    const host: Host
    const jsonFilters: Option<seq<Filter>>

    constructor(dataView: DataView, host: Host, jsonFilters: Option<seq<Filter>>)
      requires dataView.categorical.Some?
      ensures categoryValues == FirstCategoryValues(dataView.categorical.value)
      ensures this.host == host && this.jsonFilters == jsonFilters
      ensures dataPoints == []
    {
      categoryValues := FirstCategoryValues(dataView.categorical.value);
      this.host := host;
      this.jsonFilters := jsonFilters;
      dataPoints := [];
    }

    /** The data point for the value at `categoryIndex`, given the raw range
        as it was before the conversion. */
    function PointFor(categoryIndex: nat, categoryValue: real, rangeActive: bool, range: ValueRange): DataPoint {
      var text := host.numberText(categoryValue);
      DataPoint(
        host.selectionIdFor(categoryIndex),
        text,
        jsonFilters.Some? && InFilterSelected(jsonFilters.value, text),
        false,
        rangeActive && IsNumberWithinRange(categoryValue, range))
    }

    /** Replaces the data points by one point per category value, in order,
        and then resets the range's domain to the values' extent; the range
        itself is left as it was. Without a values array there are no
        points and the domain is untouched; an empty values array is still
        truthy, so it gives no points and a domain with neither end set. */
    method Convert(scalableRange: ScalableRange)
      modifies this, scalableRange
      ensures scalableRange.range == old(scalableRange.range)
      ensures categoryValues.None? ==> dataPoints == [] && scalableRange.domain == old(scalableRange.domain)
      ensures categoryValues.Some? ==>
        |dataPoints| == |categoryValues.value| &&
        scalableRange.domain == ValueRange(MinOf(categoryValues.value), MaxOf(categoryValues.value))
      ensures forall i | 0 <= i < |dataPoints| ::
        var value := categoryValues.value[i];
        && dataPoints[i].identity == host.selectionIdFor(i)
        && dataPoints[i].category == host.numberText(value)
        && (dataPoints[i].selected <==>
             jsonFilters.Some? &&
             exists f | 0 <= f < |jsonFilters.value| :: SelectsText(jsonFilters.value[f], host.numberText(value)))
        && !dataPoints[i].filtered
        && (dataPoints[i].isSelectedRangePoint <==>
             old(scalableRange.range) != Unbounded &&
             (old(scalableRange.range).min != None ==> old(scalableRange.range).min.value < value) &&
             (old(scalableRange.range).max != None ==> value < old(scalableRange.range).max.value))
    {
      dataPoints := [];
      if categoryValues.Some? {
        var values := categoryValues.value;
        for categoryIndex := 0 to |values|
          invariant |dataPoints| == categoryIndex
          invariant forall i | 0 <= i < categoryIndex ::
            dataPoints[i] == PointFor(i, values[i], scalableRange.IsActive(), scalableRange.GetValue())
          invariant scalableRange.range == old(scalableRange.range)
          invariant scalableRange.domain == old(scalableRange.domain)
        {
          var point := PointFor(categoryIndex, values[categoryIndex], scalableRange.IsActive(), scalableRange.GetValue());
          dataPoints := dataPoints + [point];
        }
        scalableRange.SetScalingTransformationDomain(ValueRange(MinOf(values), MaxOf(values)));
      }
    }
  }
}
