/** The slicer visual: turning the host's data view into slicer data
    (with the search box's prefix filter), the viewport arithmetic, the
    comparison of category identities between updates, the recovery of the
    numeric range from the host's filters, the range text boxes, and the
    guards of an update. */
module Slicer {
  import opened Values
  import opened ScalableRanges
  import opened SlicerConverter
  import opened Behavior

  // ---- the search box ----

  /** `toLowerCase` on the ASCII letters. */
  function LowerChar(c: char): (l: char)
    ensures 'A' <= c <= 'Z' ==> 'a' <= l <= 'z' && l as int - c as int == 32
    ensures !('A' <= c <= 'Z') ==> l == c
  {
    if 'A' <= c <= 'Z' then (c as int + 32) as char else c
  }

  function Lower(s: string): (l: string)
    ensures |l| == |s| && forall i | 0 <= i < |s| :: l[i] == LowerChar(s[i])
  {
    seq(|s|, i requires 0 <= i < |s| => LowerChar(s[i]))
  }

  /** `s.indexOf(prefix) === 0`. */
  predicate StartsWith(s: string, prefix: string) {
    |prefix| <= |s| && s[..|prefix|] == prefix
  }

  /** A search text hides a category when it is non-empty and the
      lower-cased category does not start with the lower-cased text. */
  predicate SearchHides(category: string, searchText: string) {
    searchText != "" && !StartsWith(Lower(category), Lower(searchText))
  }

  /** Typing more characters into the search box never shows an item that
      was hidden. */
  lemma SearchNarrows(category: string, searchText: string, more: string)
    requires SearchHides(category, searchText)
    ensures SearchHides(category, searchText + more)
  {
    assert Lower(searchText + more) == Lower(searchText) + Lower(more);
    StartsWithShorter(Lower(category), Lower(searchText), Lower(more));
  }

  /** A string that starts with `p + q` starts with `p`. */
  lemma StartsWithShorter(s: string, p: string, q: string)
    ensures StartsWith(s, p + q) ==> StartsWith(s, p)
  {
    if StartsWith(s, p + q) {
      assert s[..|p|] == (p + q)[..|p|];
    }
  }

  /** Any beginning of a category, in any letter case, keeps it visible. */
  lemma SearchKeepsPrefix(category: string, searchText: string)
    requires |searchText| <= |category|
    requires Lower(searchText) == Lower(category[..|searchText|])
    ensures !SearchHides(category, searchText)
  {
    assert Lower(category)[..|searchText|] == Lower(category[..|searchText|]);
  }

  // ---- converting the data view ----

  /** What the converter hands back to the visual. */
  datatype SlicerData = SlicerData(categorySourceName: string, slicerDataPoints: seq<DataPoint>)

  /** The data view has a first category column with at least one value. */
  predicate HasCategoryValues(dataView: Option<DataView>) {
    && dataView.Some?
    && dataView.value.categorical.Some?
    && FirstCategoryValues(dataView.value.categorical.value).Some?
    && |FirstCategoryValues(dataView.value.categorical.value).value| > 0
  }

  // ---- static helpers ----

  const WidthOfScrollbar: real := 17.0
  const MinSizeOfViewport: real := 0.0

  /** The slicer body: the viewport less the scrollbar's width, never
      negative. */
  function GetSlicerBodyViewport(currentViewport: Viewport): (body: Viewport)
    ensures body.height >= MinSizeOfViewport && body.width >= MinSizeOfViewport
    ensures currentViewport.height >= 0.0 ==> body.height == currentViewport.height
    ensures currentViewport.width >= WidthOfScrollbar ==> body.width == currentViewport.width - WidthOfScrollbar
    ensures currentViewport.height < 0.0 ==> body.height == 0.0
    ensures currentViewport.width < WidthOfScrollbar ==> body.width == 0.0
  {
    var height, width := currentViewport.height, currentViewport.width - WidthOfScrollbar;
    Viewport(if height > MinSizeOfViewport then height else MinSizeOfViewport,
             if width > MinSizeOfViewport then width else MinSizeOfViewport)
  }

  /** The length of an identity list that may be missing. */
  function GetLengthOptional(identity: Option<seq<IdentityEntry>>): (length: nat)
    ensures identity.None? ==> length == 0
    ensures identity.Some? ==> length == |identity.value|
  {
    if identity.Some? then |identity.value| else 0
  }

  /** `formatValue`: a missing value formats as the empty string, a present
      one through the host's formatter. */
  function FormatValue(value: Option<real>, format: real -> string): (text: string)
    ensures value.None? ==> text == ""
    ensures value.Some? ==> text == format(value.value)
  {
    if value.Some? then format(value.value) else ""
  }

  /** Two identity lists agree: the first is non-empty, both have the same
      length, and their keys agree position by position. */
  predicate SameIdentity(identity1: Option<seq<IdentityEntry>>, identity2: Option<seq<IdentityEntry>>) {
    && GetLengthOptional(identity1) >= 1
    && GetLengthOptional(identity1) == GetLengthOptional(identity2)
    && forall j | 0 <= j < GetLengthOptional(identity1) :: identity1.value[j].key == identity2.value[j].key
  }

  /** Both data views have category lists of the same length whose
      identity lists agree column by column. */
  predicate SameCategoryIdentity(dataView1: Option<DataView>, dataView2: Option<DataView>) {
    && dataView1.Some? && dataView2.Some?
    && dataView1.value.categorical.Some? && dataView2.value.categorical.Some?
    && var categories1, categories2 :=
         dataView1.value.categorical.value.categories, dataView2.value.categorical.value.categories;
    && categories1.Some? && categories2.Some?
    && |categories1.value| == |categories2.value|
    && forall i | 0 <= i < |categories1.value| ::
         SameIdentity(categories1.value[i].identity, categories2.value[i].identity)
  }

  /** Comparing identities does not depend on the order of the two views. */
  lemma SameCategoryIdentitySymmetric(dataView1: Option<DataView>, dataView2: Option<DataView>)
    requires SameCategoryIdentity(dataView1, dataView2)
    ensures SameCategoryIdentity(dataView2, dataView1)
  {
    var categories1 := dataView1.value.categorical.value.categories.value;
    var categories2 := dataView2.value.categorical.value.categories.value;
    forall i | 0 <= i < |categories2| ensures SameIdentity(categories2[i].identity, categories1[i].identity) {
      assert SameIdentity(categories1[i].identity, categories2[i].identity);
    }
  }

  /** A view whose every category carries identities agrees with itself;
      one with an empty or missing identity list never does. */
  lemma SameCategoryIdentityReflexive(dataView: Option<DataView>)
    requires dataView.Some? && dataView.value.categorical.Some?
    requires dataView.value.categorical.value.categories.Some?
    ensures SameCategoryIdentity(dataView, dataView) <==>
      forall i | 0 <= i < |dataView.value.categorical.value.categories.value| ::
        GetLengthOptional(dataView.value.categorical.value.categories.value[i].identity) >= 1
  {
  }

  // ---- the persisted selection ----

  /** What `JSON.parse` makes of the persisted selection text: it throws,
      yields a falsy value, or yields a list of identities. */
  datatype Parsed = Throws | Falsy | Identities(ids: seq<SelectionId>)

  /** The `getPersistedSelectionState` callback: the parsed identities, or
      none when there is no converted data yet (the text is then out of
      reach and the access throws), when parsing throws, or when it yields
      a falsy value. */
  function PersistedSelectionState(selection: Option<string>, parse: string -> Parsed): (ids: seq<SelectionId>)
    ensures selection.None? ==> ids == []
    ensures selection.Some? && !parse(selection.value).Identities? ==> ids == []
    ensures selection.Some? && parse(selection.value).Identities? ==> ids == parse(selection.value).ids
  {
    if selection.None? then []
    else match parse(selection.value)
      case Identities(ids) => ids
      case _ => []
  }

  // ---- recovering the range from the host's filters ----

  /** The parts of `s` around each `separator`, as `String.prototype.split`
      gives them. */
  function Split(s: string, separator: char): (parts: seq<string>)
    ensures |parts| >= 1
    ensures forall i | 0 <= i < |parts| :: separator !in parts[i]
    ensures Join(parts, separator) == s
    decreases |s|
  {
    if separator !in s then [s]
    else
      var k := FirstIndex(s, separator);
      var rest := Split(s[k + 1..], separator);
      assert s == s[..k] + [separator] + s[k + 1..];
      [s[..k]] + rest
  }

  /** The parts joined with the separator between them. */
  function Join(parts: seq<string>, separator: char): string
    requires |parts| >= 1
  {
    if |parts| == 1 then parts[0] else parts[0] + [separator] + Join(parts[1..], separator)
  }

  /** The position of the first `c` in `s`. */
  function FirstIndex(s: string, c: char): (k: nat)
    requires c in s
    ensures k < |s| && s[k] == c && c !in s[..k]
  {
    if s[0] == c then 0
    else
      var k := FirstIndex(s[1..], c);
      assert s[..k + 1] == [s[0]] + s[1..][..k];
      k + 1
  }

  /** The first `c` is at `k` when `s[k]` is `c` and none comes before. */
  lemma {:induction false} FirstIndexIs(s: string, c: char, k: nat)
    requires k < |s| && s[k] == c && c !in s[..k]
    ensures FirstIndex(s, c) == k
  {
    if k > 0 {
      assert s[0] in s[..k];
      assert s[1..][k - 1] == c;
      assert s[1..][..k - 1] == s[..k][1..];
      FirstIndexIs(s[1..], c, k - 1);
    }
  }

  /** A part without the separator, then the separator: splitting takes
      that part off first. */
  lemma SplitCons(head: string, separator: char, tail: string)
    requires separator !in head
    ensures Split(head + [separator] + tail, separator) == [head] + Split(tail, separator)
  {
    var s := head + [separator] + tail;
    assert s[|head|] == separator;
    assert s[..|head|] == head;
    FirstIndexIs(s, separator, |head|);
    assert s[|head| + 1..] == tail;
  }

  /** Splitting undoes joining parts that do not contain the separator. */
  lemma {:induction false} SplitJoin(parts: seq<string>, separator: char)
    requires |parts| >= 1
    requires forall i | 0 <= i < |parts| :: separator !in parts[i]
    ensures Split(Join(parts, separator), separator) == parts
    decreases |parts|
  {
    if |parts| > 1 {
      assert separator !in parts[0];
      SplitCons(parts[0], separator, Join(parts[1..], separator));
      SplitJoin(parts[1..], separator);
    }
  }

  /** A filter on the slicer's column: an "And" filter whose target names
      the table and column. */
  predicate MatchesColumn(filter: Filter, table: string, column: string) {
    filter.AdvancedFilter? && filter.logicalOperator == LogicalAnd &&
    filter.target.Some? && filter.target.value == Target(table, column)
  }

  /** `find`: the first filter on the slicer's column, if any. */
  function FindColumnFilter(filters: seq<Filter>, table: string, column: string): (found: Option<nat>)
    ensures found.None? <==> forall i | 0 <= i < |filters| :: !MatchesColumn(filters[i], table, column)
    ensures found.Some? ==>
      found.value < |filters| && MatchesColumn(filters[found.value], table, column) &&
      forall i | 0 <= i < found.value :: !MatchesColumn(filters[i], table, column)
  {
    if filters == [] then None
    else if MatchesColumn(filters[0], table, column) then Some(0)
    else match FindColumnFilter(filters[1..], table, column)
      case None => None
      case Some(k) => Some(k + 1)
  }

  /** `find`: the value of the first condition with the operator, if any. */
  function FirstConditionValue(conditions: seq<Condition>, operator: string): (value: Option<real>)
    ensures value.None? <==> forall i | 0 <= i < |conditions| :: conditions[i].operator != operator
    ensures value.Some? ==> exists i | 0 <= i < |conditions| ::
      conditions[i] == Condition(operator, value.value) &&
      forall j | 0 <= j < i :: conditions[j].operator != operator
  {
    if conditions == [] then None
    else if conditions[0].operator == operator then Some(conditions[0].value)
    else
      var rest := FirstConditionValue(conditions[1..], operator);
      assert forall i | 1 <= i < |conditions| :: conditions[i] == conditions[1..][i - 1];
      rest
  }

  /** The query name of the data view's first column as `String` renders
      it: a missing name reads "undefined". */
  function QueryText(queryName: Option<string>): string {
    if queryName.Some? then queryName.value else "undefined"
  }

  /** The range `restoreRangeFilter` sets, if any: with JSON filters present
      and a first metadata column whose query name splits on '.' into a
      non-empty table and column, the first "And" filter on that column
      that has conditions gives min from its first GreaterThan condition
      and max from its first LessThan condition, each null when absent. */
  function RestoredRange(jsonFilters: Option<seq<Filter>>, dataView: DataView): (restored: Option<ValueRange>)
    ensures restored.Some? ==> jsonFilters.Some? && dataView.metadata.Some?
  {
    if jsonFilters.None? || dataView.metadata.None? || dataView.metadata.value.columns.None? ||
       |dataView.metadata.value.columns.value| == 0
    then None
    else
      var source := Split(QueryText(dataView.metadata.value.columns.value[0].queryName), '.');
      if |source| < 2 || source[0] == "" || source[1] == "" then None
      else match FindColumnFilter(jsonFilters.value, source[0], source[1])
        case None => None
        case Some(k) =>
          var filter := jsonFilters.value[k];
          if filter.conditions.None? then None
          else Some(ValueRange(FirstConditionValue(filter.conditions.value, OperatorGreaterThan),
                               FirstConditionValue(filter.conditions.value, OperatorLessThan)))
  }

  /** The range filter a range change sends to the host comes back from
      `restoreRangeFilter` as the range, except that falsy ends (null or 0)
      come back null. */
  lemma RestoreUndoesRangeFilter(value: ValueRange, table: string, column: string, dataView: DataView)
    requires table != "" && column != "" && '.' !in table && '.' !in column
    requires Truthy(value.min) || Truthy(value.max)
    requires dataView.metadata.Some? && dataView.metadata.value.columns.Some?
    requires |dataView.metadata.value.columns.value| > 0
    requires dataView.metadata.value.columns.value[0].queryName == Some(table + "." + column)
    ensures RestoredRange(Some([RangeFilter(value, Target(table, column)).value]), dataView) ==
      Some(ValueRange(if Truthy(value.min) then value.min else None,
                      if Truthy(value.max) then value.max else None))
  {
    assert table + "." + column == Join([table, column], '.');
    SplitJoin([table, column], '.');
    var conditions := RangeFilter(value, Target(table, column)).value.conditions.value;
    assert OperatorGreaterThan != OperatorLessThan;
    if Truthy(value.min) && Truthy(value.max) {
      assert conditions[1..][0] == conditions[1];
    }
  }

  // ---- the visual ----

  datatype RangeValueType = Start | End

  /** The parts of the host's update options the visual reads. */
  datatype UpdateOptions = UpdateOptions(
    dataViews: Option<seq<DataView>>,
    viewport: Option<Viewport>,
    jsonFilters: Option<seq<Filter>>)

  /** An update needs options with a first data view and a viewport. */
  predicate CanUpdate(options: Option<UpdateOptions>) {
    && options.Some?
    && options.value.dataViews.Some? && |options.value.dataViews.value| > 0
    && options.value.viewport.Some?
  }

  class SampleSlicer {
    const behavior: SelectionBehavior
    const host: Host
    var currentViewport: Option<Viewport>
    var dataView: Option<DataView>
    var jsonFilters: Option<seq<Filter>>
    var waitingForData: bool
    /** The search box's text. */
    var searchText: string
    var slicerData: Option<SlicerData>

    constructor(host: Host)
      ensures this.host == host && fresh(behavior) && fresh(behavior.scalableRange)
      ensures behavior.callbacks == Callbacks(host.columnTarget)
      ensures behavior.selectionHandler == null && behavior.appliedFilters == []
      ensures !behavior.scalableRange.IsActive()
      ensures currentViewport == None && dataView == None && jsonFilters == None
      ensures searchText == "" && slicerData == None
    {
      this.host := host;
      behavior := new SelectionBehavior(Callbacks(host.columnTarget));
      currentViewport := None;
      dataView := None;
      jsonFilters := None;
      waitingForData := false;
      searchText := "";
      slicerData := None;
    }

    /** The static `converter`: nothing for a data view without category
        values; otherwise one point per value as the converter makes it,
        with `filtered` set by the search text, and the range's domain
        reset to the values' extent. */
    static method Converter(dataView: Option<DataView>, searchText: string, scalableRange: ScalableRange,
                            host: Host, jsonFilters: Option<seq<Filter>>)
      returns (data: Option<SlicerData>)
      modifies scalableRange
      ensures data.None? <==> !HasCategoryValues(dataView)
      ensures scalableRange.range == old(scalableRange.range)
      ensures data.None? ==> scalableRange.domain == old(scalableRange.domain)
      ensures data.Some? ==>
        var values := FirstCategoryValues(dataView.value.categorical.value).value;
        var points := data.value.slicerDataPoints;
        && data.value.categorySourceName == dataView.value.categorical.value.categories.value[0].displayName
        && scalableRange.domain == ValueRange(MinOf(values), MaxOf(values))
        && |points| == |values|
        && forall i | 0 <= i < |points| ::
             && points[i].identity == host.selectionIdFor(i)
             && points[i].category == host.numberText(values[i])
             && (points[i].selected <==> jsonFilters.Some? && InFilterSelected(jsonFilters.value, points[i].category))
             && (points[i].isSelectedRangePoint <==>
                  old(scalableRange.range) != Unbounded && IsNumberWithinRange(values[i], old(scalableRange.range)))
             && (points[i].filtered <==> SearchHides(points[i].category, searchText))
    {
      if !HasCategoryValues(dataView) {
        return None;
      }
      var converter := new SampleSlicerConverter(dataView.value, host, jsonFilters);
      converter.Convert(scalableRange);
      var points := converter.dataPoints;
      if searchText != "" {
        points := ApplySearch(points, searchText);
      }
      var categories := dataView.value.categorical.value.categories.value[0];
      data := Some(SlicerData(categories.displayName, points));
    }

    /** Marks each point whose lower-cased text does not start with the
        lower-cased, non-empty search text as filtered. */
    static method ApplySearch(points: seq<DataPoint>, searchText: string) returns (searched: seq<DataPoint>)
      requires searchText != ""
      ensures |searched| == |points|
      ensures forall j | 0 <= j < |points| ::
        searched[j] == points[j].(filtered := SearchHides(points[j].category, searchText))
    {
      var search := Lower(searchText);
      searched := points;
      for i := 0 to |points|
        invariant |searched| == |points|
        invariant forall j | 0 <= j < |points| ::
          searched[j] == if j < i then points[j].(filtered := SearchHides(points[j].category, searchText)) else points[j]
      {
        searched := searched[i := searched[i].(filtered := !StartsWith(Lower(searched[i].category), search))];
      }
    }

    /** Compares the category identities of two data views with the two
        nested loops of `hasSameCategoryIdentity`. */
    static method HasSameCategoryIdentity(dataView1: Option<DataView>, dataView2: Option<DataView>)
      returns (same: bool)
      ensures same <==> SameCategoryIdentity(dataView1, dataView2)
    {
      if dataView1.None? || dataView2.None? ||
         dataView1.value.categorical.None? || dataView2.value.categorical.None? {
        return false;
      }
      var dv1Categories := dataView1.value.categorical.value.categories;
      var dv2Categories := dataView2.value.categorical.value.categories;
      if dv1Categories.None? || dv2Categories.None? || |dv1Categories.value| != |dv2Categories.value| {
        return false;
      }
      var categories1, categories2 := dv1Categories.value, dv2Categories.value;
      for i := 0 to |categories1|
        invariant forall k | 0 <= k < i :: SameIdentity(categories1[k].identity, categories2[k].identity)
      {
        var dv1Identity := categories1[i].identity;
        var dv2Identity := categories2[i].identity;
        var dv1Length := GetLengthOptional(dv1Identity);
        if dv1Length < 1 || dv1Length != GetLengthOptional(dv2Identity) {
          return false;
        }
        for j := 0 to dv1Length
          invariant forall k | 0 <= k < j :: dv1Identity.value[k].key == dv2Identity.value[k].key
        {
          if dv1Identity.value[j].key != dv2Identity.value[j].key {
            return false;
          }
        }
      }
      return true;
    }

    /** Sets the range recovered from the JSON filters, if any. */
    method RestoreRangeFilter(dataView: DataView)
      modifies behavior.scalableRange
      ensures var restored := RestoredRange(jsonFilters, dataView);
        behavior.scalableRange.range == if restored.Some? then restored.value else old(behavior.scalableRange.range)
      ensures behavior.scalableRange.domain == old(behavior.scalableRange.domain)
    {
      var restored := RestoredRange(jsonFilters, dataView);
      if restored.Some? {
        behavior.scalableRange.SetValue(restored.value);
      }
    }

    /** Re-converts the current data view; slicer data are replaced only
        when there are category values. */
    method UpdateInternal(categoryIdentityChanged: bool)
      modifies this, behavior.scalableRange
      ensures currentViewport == old(currentViewport) && dataView == old(dataView)
      ensures jsonFilters == old(jsonFilters) && searchText == old(searchText)
      ensures waitingForData == old(waitingForData)
      ensures behavior.scalableRange.range == old(behavior.scalableRange.range)
      ensures HasCategoryValues(dataView) ==> slicerData.Some?
      ensures !HasCategoryValues(dataView) ==>
        slicerData == old(slicerData) && behavior.scalableRange.domain == old(behavior.scalableRange.domain)
    {
      var data := Converter(dataView, searchText, behavior.scalableRange, host, jsonFilters);
      if data.Some? {
        slicerData := data;
      }
    }

    /** A new text in a range box: empty or unparsable text is null; the
        same value as the bound changes nothing; otherwise the chosen bound
        (start: min, end: max) takes the value, and unless the filter is
        suppressed the range is applied and the data re-converted. */
    method OnRangeInputTextboxChange(inputString: string, rangeValueType: RangeValueType, supressFilter: bool)
      modifies this, behavior, behavior.scalableRange, behavior.selectionHandler
      ensures behavior.scalableRange == old(behavior.scalableRange)
      ensures var inputValue := if inputString == "" then None else host.parseFloat(inputString);
        var range := old(behavior.scalableRange.range);
        var updated := if rangeValueType == Start then range.(min := inputValue) else range.(max := inputValue);
        var f := RangeFilter(updated, behavior.callbacks.filterColumnTarget);
        && (updated == range ==>
              behavior.scalableRange.range == range && behavior.appliedFilters == old(behavior.appliedFilters))
        && (updated != range ==> behavior.scalableRange.range == updated)
        && (updated != range && supressFilter ==> behavior.appliedFilters == old(behavior.appliedFilters))
        && (updated != range && !supressFilter ==>
              behavior.appliedFilters == old(behavior.appliedFilters) + (if f.Some? then [f.value] else []))
      ensures dataView == old(dataView) && jsonFilters == old(jsonFilters)
      ensures currentViewport == old(currentViewport) && searchText == old(searchText)
      ensures waitingForData == old(waitingForData)
      ensures behavior.dataPoints == old(behavior.dataPoints) && behavior.slicerSettings == old(behavior.slicerSettings)
      ensures var inputValue := if inputString == "" then None else host.parseFloat(inputString);
        var range := old(behavior.scalableRange.range);
        var updated := if rangeValueType == Start then range.(min := inputValue) else range.(max := inputValue);
        && (updated == range || supressFilter ==>
              && slicerData == old(slicerData)
              && behavior.scalableRange.domain == old(behavior.scalableRange.domain))
        && (updated != range && !supressFilter && HasCategoryValues(dataView) ==> slicerData.Some?)
      ensures behavior.selectionHandler == old(behavior.selectionHandler)
      ensures var inputValue := if inputString == "" then None else host.parseFloat(inputString);
        var range := old(behavior.scalableRange.range);
        var updated := if rangeValueType == Start then range.(min := inputValue) else range.(max := inputValue);
        behavior.selectionHandler != null ==>
          && (updated != range && !supressFilter ==> behavior.selectionHandler.selectedIds == [])
          && (updated == range || supressFilter ==>
                behavior.selectionHandler.selectedIds == old(behavior.selectionHandler.selectedIds))
    {
      var inputValue: Option<real>;
      if inputString == "" {
        inputValue := None;
      } else {
        inputValue := host.parseFloat(inputString);
      }
      var scalableRange := behavior.scalableRange;
      var range := scalableRange.GetValue();
      if rangeValueType == Start {
        if range.min == inputValue {
          return;
        }
        range := range.(min := inputValue);
      } else {
        if range.max == inputValue {
          return;
        }
        range := range.(max := inputValue);
      }
      // the range object returned by getValue is the live one: the write
      // above already changed the bound, whether or not the filter follows
      scalableRange.range := range;
      if !supressFilter {
        scalableRange.SetValue(range);
        behavior.UpdateOnRangeSelectonChange();
        UpdateInternal(false);
      }
    }

    /** An update from the host. Nothing happens without options, a first
        data view or a viewport. Otherwise the JSON filters are stored and
        the range restored from them, the data view replaced, the viewport
        taken (or, when unchanged, the visual stops waiting for data), and
        the data re-converted; the result says whether the category
        identities changed since the previous data view. */
    method Update(options: Option<UpdateOptions>) returns (categoryIdentityChanged: bool)
      modifies this, behavior.scalableRange
      ensures searchText == old(searchText)
      ensures !CanUpdate(options) ==>
        && currentViewport == old(currentViewport) && dataView == old(dataView)
        && jsonFilters == old(jsonFilters) && slicerData == old(slicerData)
        && waitingForData == old(waitingForData)
        && behavior.scalableRange.range == old(behavior.scalableRange.range)
        && behavior.scalableRange.domain == old(behavior.scalableRange.domain)
      ensures CanUpdate(options) ==>
        && jsonFilters == options.value.jsonFilters
        && dataView == Some(options.value.dataViews.value[0])
        && currentViewport == options.value.viewport
        && (old(currentViewport).None? || old(currentViewport) == options.value.viewport ==> !waitingForData)
        && (old(currentViewport).Some? && old(currentViewport) != options.value.viewport ==>
              waitingForData == old(waitingForData))
        && (categoryIdentityChanged <==> !(old(dataView).Some? && SameCategoryIdentity(old(dataView), dataView)))
        && (HasCategoryValues(dataView) ==> slicerData.Some?)
      ensures CanUpdate(options) ==>
        var restored := RestoredRange(options.value.jsonFilters, options.value.dataViews.value[0]);
        behavior.scalableRange.range == if restored.Some? then restored.value else old(behavior.scalableRange.range)
    {
      categoryIdentityChanged := false;
      if !CanUpdate(options) {
        return;
      }
      var viewport := options.value.viewport.value;
      jsonFilters := options.value.jsonFilters;
      RestoreRangeFilter(options.value.dataViews.value[0]);
      if currentViewport.None? {
        currentViewport := Some(viewport);
      }
      var existingDataView := dataView;
      dataView := Some(options.value.dataViews.value[0]);
      categoryIdentityChanged := true;
      if existingDataView.Some? {
        var same := HasSameCategoryIdentity(existingDataView, dataView);
        categoryIdentityChanged := !same;
      }
      if currentViewport == Some(viewport) {
        waitingForData := false;
      } else {
        currentViewport := Some(viewport);
      }
      UpdateInternal(categoryIdentityChanged);
    }
  }
}
