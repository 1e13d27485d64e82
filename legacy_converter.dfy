/** The older converter: every point starts selected, and range membership
    is inclusive and ignores a falsy (null or 0) bound. */
module LegacyConverter {
  import opened Values
  import opened ScalableRanges

  /** Inclusive range membership; a null or 0 bound does not constrain. */
  function IsNumberWithingRange(theNumber: real, subRange: ValueRange): (within: bool)
    ensures within <==>
      (Truthy(subRange.min) ==> subRange.min.value <= theNumber) &&
      (Truthy(subRange.max) ==> theNumber <= subRange.max.value)
  {
    if Truthy(subRange.min) && subRange.min.value > theNumber then false
    else if Truthy(subRange.max) && subRange.max.value < theNumber then false
    else true
  }

  class SampleSlicerConverter {
    var dataPoints: seq<DataPoint>
    const categoryValues: Option<seq<real>>
    const host: Host

    constructor(dataView: DataView, host: Host)
      requires dataView.categorical.Some?
      ensures categoryValues == FirstCategoryValues(dataView.categorical.value)
      ensures this.host == host
      ensures dataPoints == []
    {
      categoryValues := FirstCategoryValues(dataView.categorical.value);
      this.host := host;
      dataPoints := [];
    }

    /** The data point for the value at `categoryIndex`. */
    function PointFor(categoryIndex: nat, categoryValue: real, rangeActive: bool, range: ValueRange): DataPoint {
      DataPoint(
        host.selectionIdFor(categoryIndex),
        host.numberText(categoryValue),
        true,
        false,
        rangeActive && IsNumberWithingRange(categoryValue, range))
    }

    /** One selected, unfiltered point per category value, in order; then
        the domain becomes the values' extent. */
    method Convert(scalableRange: ScalableRange)
      modifies this, scalableRange
      ensures scalableRange.range == old(scalableRange.range)
      ensures categoryValues.None? ==> dataPoints == [] && scalableRange.domain == old(scalableRange.domain)
      ensures categoryValues.Some? ==>
        |dataPoints| == |categoryValues.value| &&
        scalableRange.domain == ValueRange(MinOf(categoryValues.value), MaxOf(categoryValues.value))
      ensures forall i | 0 <= i < |dataPoints| ::
        var value := categoryValues.value[i];
        && dataPoints[i].identity == host.selectionIdFor(i)
        && dataPoints[i].category == host.numberText(value)
        && dataPoints[i].selected
        && !dataPoints[i].filtered
        && (dataPoints[i].isSelectedRangePoint <==>
             old(scalableRange.range) != Unbounded &&
             (Truthy(old(scalableRange.range).min) ==> old(scalableRange.range).min.value <= value) &&
             (Truthy(old(scalableRange.range).max) ==> value <= old(scalableRange.range).max.value))
    {
      dataPoints := [];
      if categoryValues.Some? {
        var values := categoryValues.value;
        for categoryIndex := 0 to |values|
          invariant |dataPoints| == categoryIndex
          invariant forall i | 0 <= i < categoryIndex ::
            dataPoints[i] == PointFor(i, values[i], scalableRange.IsActive(), scalableRange.GetValue())
          invariant scalableRange.range == old(scalableRange.range)
          invariant scalableRange.domain == old(scalableRange.domain)
        {
          var point := PointFor(categoryIndex, values[categoryIndex], scalableRange.IsActive(), scalableRange.GetValue());
          dataPoints := dataPoints + [point];
        }
        scalableRange.SetScalingTransformationDomain(ValueRange(MinOf(values), MaxOf(values)));
      }
    }
  }
}
