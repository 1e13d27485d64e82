# Sample slicer: a Dafny model

The Power BI sample slicer is a visual that shows the values of one numeric category column as a grid of items. A user can pick values in two ways:

- click items to select them (a discrete selection);
- type a numeric range into two text boxes, or drag a slider over the 0-100 scale.

A search box hides the items whose text does not start with what was typed.

This project models the visual's core logic and proves properties of it:

- converting the host's data view into slicer data points;
- the range selection and its linear scale;
- the discrete selection and how it is persisted and restored;
- the advanced filter that a range change sends to the host, and how that filter is read back on the next update;
- the table view that lays the items out in rows and columns;
- the guards and the state changes of an update.

One module per source file:

| module | file | models |
|---|---|---|
| `Values` | values.dfy | shared value types: optional numbers and their JavaScript truthiness, selection identities, data points, basic and advanced filters, the data-view shape, settings, host services, `d3.min`/`d3.max` |
| `ScalableRanges` | scalable_range.dfy | `src/scalableRange.ts` |
| `Interactivity` | interactivity.dfy | the host library's selection handler, as the behaviours call it (multi-select toggle and clear) |
| `SlicerConverter` | sample_slicer_converter.dfy | `src/sampleSlicerConverter.ts` |
| `LegacyConverter` | legacy_converter.dfy | `src/converter.ts` |
| `Tables` | table_view.dfy | `src/tableView.ts` |
| `Behavior` | selection_behavior.dfy | `src/selectionBehavior.ts` |
| `WebBehavior` | web_behavior.dfy | `src/webBehavior.ts` |
| `Slicer` | sample_slicer.dfy | `src/sampleSlicer.ts` |

How the model represents the source:

- **Numbers.** JavaScript numbers are `real`. An optional number is `Option<real>`. `Truthy` models JavaScript truthiness: null and 0 are falsy.
- **Objects updated in place.** The scalable range, the converters, the selection handler, the two behaviours, the table view and the visual are classes. Their methods carry `modifies` clauses.
- **Host calls.** Calls into the host are recorded as logs on the objects that make them:
  - `appliedFilters` records the filters applied by a range change;
  - `calls` records the web behaviour's apply and persist calls.
- **Host services.** These are parameters bundled in `Values.Host`:
  - the selection-id builder;
  - `Number.prototype.toString`;
  - `parseFloat`;
  - the column target.

## Model

| member | source | states |
|---|---|---|
| Values.MinOf | src/sampleSlicerConverter.ts:95-98 | `d3.min` of the category values: none exactly for no values, otherwise a member of the values that is at most every value |
| Values.MaxOf | src/sampleSlicerConverter.ts:95-98 | `d3.max`: none exactly for no values, otherwise a member that is at least every value |
| ScalableRanges.Scale | src/scalableRange.ts:57-59 | the d3 linear scale maps the domain's ends onto 0 and 100 and the domain into [0, 100] |
| ScalableRanges.Invert | src/scalableRange.ts:93-94 | the scale's `invert` maps 0 and 100 back onto the domain's ends |
| ScalableRanges.InvertBounds | src/scalableRange.ts:93-94 | a slider position in [0, 100] inverts into the domain |
| ScalableRanges.ScaleInvert | src/scalableRange.ts:57-59 | scaling an inverted slider position gives the position back |
| ScalableRanges.InvertScale | src/scalableRange.ts:57-59 | inverting a scaled value gives the value back |
| ScalableRanges.ScalableRange.constructor | src/scalableRange.ts:37-49 | a new range and domain are both unbounded, so the range is not active |
| ScalableRanges.ScalableRange.IsActive | src/scalableRange.ts:51-53 | active exactly when a bound is set |
| ScalableRanges.ScalableRange.SetScalingTransformationDomain | src/scalableRange.ts:55-60 | the domain is replaced; the range is kept |
| ScalableRanges.ScalableRange.GetScalingTransformationDomain | src/scalableRange.ts:62-64 | the returned domain is the one the scale is built on: inside a proper domain, a bound scales linearly between its ends |
| ScalableRanges.ScalableRange.SaturateDomainValue | src/scalableRange.ts:73-81 | the clamped value lies in the domain; a value below (above) it becomes the minimum (maximum); a value inside is unchanged |
| ScalableRanges.ScalableRange.GetScaledValue | src/scalableRange.ts:66-71 | a falsy bound sits at its end of the scale; every position lies in [0, 100]; a bound outside the domain sits at the end on its side; a bound inside the domain inverts back to itself |
| ScalableRanges.ScalableRange.ScaledBound | src/scalableRange.ts:68-69 | a truthy bound, clamped and scaled, lies in [0, 100] and inverts back to itself when it lies in the domain |
| ScalableRanges.ScalableRange.SetValue | src/scalableRange.ts:83-85 | the range becomes the value and the domain is kept |
| ScalableRanges.ScalableRange.GetValue | src/scalableRange.ts:87-89 | the returned range is set (a bound is not null) exactly when the range selection is active |
| ScalableRanges.ScalableRange.SetScaledValue | src/scalableRange.ts:91-96 | position 0 (100) keeps the old lower (upper) bound only when it lies below (above) the domain's end on that side, an unset end comparing as 0, otherwise clears it, so a fresh range stays unset even on an unset domain; other positions invert through the scale; reading back gives the same positions, except that a bound that inverts to exactly 0 reads back as its end of the scale |
| Interactivity.Remove | src/selectionBehavior.ts:107 | deselecting keeps every other identity and keeps identities distinct |
| Interactivity.Toggle | src/selectionBehavior.ts:107 | a multi-select click selects the identity exactly when it was not selected and leaves every other identity as it was |
| Interactivity.ToggleAllFresh | src/webBehavior.ts:117-119 | toggling new, distinct identities one after another appends them in order |
| Interactivity.SelectionHandler.HandleSelection | src/selectionBehavior.ts:107 | the handler's selection is toggled at the point's identity |
| Interactivity.SelectionHandler.HandleClearSelection | src/selectionBehavior.ts:132 | nothing stays selected |
| SlicerConverter.InFilterSelected | src/sampleSlicerConverter.ts:75-84 | the `reduce` over the JSON filters is true exactly when some "In" filter holds the value's text |
| SlicerConverter.IsNumberWithinRange | src/sampleSlicerConverter.ts:102-110 | strict membership: each bound that is present, 0 included, lies strictly on its side |
| SlicerConverter.SampleSlicerConverter.constructor | src/sampleSlicerConverter.ts:52-62 | keeps the first category column's values (when there is a column), the host and the filters; no points yet |
| SlicerConverter.SampleSlicerConverter.Convert | src/sampleSlicerConverter.ts:64-100 | one point per category value, in order, with its identity, text, "In"-filter selection, unfiltered state and strict range membership (against the range as it was); then the domain becomes the values' extent; without a values array there are no points and the domain is kept; an empty (still truthy) values array gives no points and a domain with neither end set |
| LegacyConverter.IsNumberWithingRange | src/converter.ts:75-83 | inclusive membership that ignores a falsy (null or 0) bound |
| LegacyConverter.SampleSlicerConverter.constructor | src/converter.ts:37-46 | keeps the first category column's values and the host; no points yet |
| LegacyConverter.SampleSlicerConverter.Convert | src/converter.ts:48-73 | one selected, unfiltered point per value, in order, with inclusive range membership; then the domain becomes the values' extent |
| Tables.Ceil | src/tableView.ts:147 | `Math.ceil`: the least integer not below the argument |
| Tables.CeilDiv | src/tableView.ts:205 | `Math.ceil(a / b)` for a positive divisor |
| Tables.FloorDiv | src/tableView.ts:258 | `Math.floor(a / b)` for a positive divisor |
| Tables.DivisionAgrees | src/tableView.ts:249-260 | for a non-negative dividend the floor is Dafny's division, and the ceiling is one more exactly when there is a remainder |
| Tables.SliceIndex | src/tableView.ts:283 | a `slice` index is clamped to the sequence; a non-negative one is capped at its length |
| Tables.Slice | src/tableView.ts:283 | `slice(start, end)` with ordered non-negative ends is the clamped subsequence |
| Tables.AddDataToArray | src/tableView.ts:278-288 | a group is appended exactly when the slice is non-empty; the earlier groups are kept and all groups stay non-empty |
| Tables.AddDataToArrayFlatten | src/tableView.ts:278-288 | adding a group appends exactly the sliced items to the flattened groups |
| Tables.Totals | src/tableView.ts:195-213 | the counts `setTotalRows` stores: each is capped at the item count; a missing count is `ceil(n / other)`, the least count that gives every item room beside the other; unless both counts are given the grid has room for every item; with neither count there is one column of `n` rows |
| Tables.GroupLayout | src/tableView.ts:219-241 | with items and non-negative counts, the counts `getGroupedData` lays out are positive; they are the capped configured counts when both are given, and otherwise leave room for every item |
| Tables.GroupsAfter | src/tableView.ts:247-267 | after `i` rounds of the layout loop there are at most `i` groups, none of them empty |
| Tables.GroupsAfterStep | src/tableView.ts:256-265 | one more round adds the items between that round's two boundaries |
| Tables.SpreadRoundHolds | src/tableView.ts:252-260 | the loop's two kinds of spread round take exactly the items between boundaries `i` and `i + 1` |
| Tables.ColumnRoundHolds | src/tableView.ts:263-265 | a round without spreading takes `columns` items from `i * columns` |
| Tables.NoItemsNoGroups | src/tableView.ts:285-287 | with no items no round adds a group |
| Tables.GroupsArePrefix | src/tableView.ts:247-267 | with boundaries that start at 0 and never decrease, the groups hold, in order and once each, the items before the last boundary |
| Tables.GroupsExact | src/tableView.ts:247-267 | with strictly increasing boundaries inside the items, group `j` is exactly the items between boundaries `j` and `j + 1` |
| Tables.GroupsCount | src/tableView.ts:247-267 | with strictly increasing boundaries inside the items, `i` rounds make exactly `i` groups |
| Tables.GroupStable | src/tableView.ts:247-267 | with strictly increasing boundaries, later rounds leave each earlier group as its own round made it |
| Tables.GroupsCoverPrefix | src/tableView.ts:247-267 | with boundaries that start at 0 and never decrease, the groups hold a prefix of the items, and all of them once the last boundary reaches their count |
| Tables.ColumnBoundaryMonotone | src/tableView.ts:263 | row starts `i * columns` never decrease for a non-negative column count |
| Tables.SpreadQuotients | src/tableView.ts:249-260 | with `0 < rows <= n`, `floor(n / rows)` is at least 1; `ceil(n / rows)` is one more than it exactly when there is a remainder; `n = rows * floor + remainder` |
| Tables.SpreadBoundaryStep | src/tableView.ts:252-260 | a spread grows by `ceil` for each of its first `remainder` rounds and by `floor` afterwards |
| Tables.SpreadBoundaryUpTo | src/tableView.ts:252-260 | a spread's boundaries never decrease |
| Tables.SpreadBoundaryEnd | src/tableView.ts:252-260 | a spread over `rows` rounds ends at `rows * floor + remainder` |
| Tables.SpreadStep | src/tableView.ts:252-260 | each spread round over the items takes `ceil(n / rows)` or `floor(n / rows)` items and never goes past the last item |
| Tables.SpreadEnd | src/tableView.ts:247-260 | a spread over `rows` rows ends exactly at the last item |
| Tables.SpreadMonotone | src/tableView.ts:252-260 | spread boundaries start at 0 and never decrease |
| Tables.GroupedCoversItems | src/tableView.ts:215-276 | every group is non-empty; the groups hold a prefix of the items, in order; they hold all the items unless both a row and a column count are given; with both they hold exactly the first rows × columns items, each count capped at the number of items |
| Tables.GridKeepsFirst | src/tableView.ts:215-276 | with both counts given, the groups hold exactly the items before position min(rows, n) × min(columns, n); the rest are dropped |
| Tables.RowsSpreadEvenly | src/tableView.ts:247-261 | with only a row count `rows` in (0, n] there are exactly `rows` groups covering every item once; the first `n % rows` groups hold `ceil(n / rows)` items and the others `floor(n / rows)` |
| Tables.RowGroups | src/tableView.ts:247-261 | with only a row count `rows` in (0, n], the loop makes exactly `rows` groups; the first `n % rows` hold `ceil(n / rows)` items and the others `floor(n / rows)` |
| Tables.RowStep | src/tableView.ts:249-260 | with only a row count in (0, n], each round's boundaries increase within the items, by `ceil(n / rows)` while `i < n % rows` and by `floor(n / rows)` afterwards |
| Tables.RowsOnlyLayout | src/tableView.ts:229-230 | with only a row count in (0, n], the layout is that many rows of `ceil(n / rows)` columns |
| Tables.EvenStep | src/tableView.ts:263-265 | when the row count divides the items, every row takes `n / rows` items and stays within the items |
| Tables.NoItemsGrouped | src/tableView.ts:215-276 | with no items there are no groups, whatever the counts |
| Tables.NoCountsOneGroup | src/tableView.ts:226-228 | with neither count, all the items form one group, or none without items |
| Tables.TableView.constructor | src/tableView.ts:109-128 | keeps the options; no items; both computed counts read 0 |
| Tables.TableView.ComputedColumns | src/tableView.ts:134-138 | 0 before any render, otherwise the last render's column count |
| Tables.TableView.ComputedRows | src/tableView.ts:140-144 | 0 before any render, otherwise the last render's row count |
| Tables.TableView.RowHeight | src/tableView.ts:146-150 | the row height option becomes its ceiling; nothing else changes; the view is returned for chaining |
| Tables.TableView.ColumnWidth | src/tableView.ts:152-156 | the column width option becomes its ceiling; nothing else changes |
| Tables.TableView.Rows | src/tableView.ts:158-162 | the row count option becomes its ceiling; nothing else changes |
| Tables.TableView.Columns | src/tableView.ts:164-168 | the column count option becomes its ceiling; nothing else changes |
| Tables.TableView.Viewport | src/tableView.ts:182-186 | the viewport option is replaced; nothing else changes |
| Tables.TableView.Data | src/tableView.ts:170-180 | the items are replaced and the stored counts become `Totals` of them |
| Tables.TableView.Empty | src/tableView.ts:188-193 | drops the items and renders: no rows and no columns remain |
| Tables.TableView.SetTotalRows | src/tableView.ts:195-213 | the stored counts are `Totals` of the items and the configured counts |
| Tables.TableView.Render | src/tableView.ts:312-316 | the computed counts describe the grouped items |
| Tables.TableView.GetGroupedData | src/tableView.ts:215-276 | the counts returned are `GroupLayout`; the groups are `Grouped`; the computed counts describe them |
| Tables.TableView.GroupItems | src/tableView.ts:244-267 | the loop's result is the groups after `rowCount` rounds |
| Tables.TableView.AddRound | src/tableView.ts:248-266 | one loop round adds group `i` and, when spreading, moves `k` to where the next group starts |
| Tables.FirstBoundary | src/tableView.ts:244-245 | the first round starts at the first item, as `k` starts at 0 |
| Tables.TableView.GetComputedOptions | src/tableView.ts:290-310 | the row count is the number of groups and the column count is the longest group's length (0 with no groups) |
| Behavior.RangeFilter | src/selectionBehavior.ts:154-176 | no filter exactly when both ends are falsy; otherwise an "And" advanced filter on the column whose conditions are `GreaterThan min` for a truthy min, then `LessThan max` for a truthy max |
| Behavior.ConditionsForUnique | src/selectionBehavior.ts:159-174 | the conditions are determined by the range |
| Behavior.RangeChangeAsWritten | src/selectionBehavior.ts:151-178 | with a truthy end, a filter reaches the host exactly when both callbacks the code calls are defined, and it is then `RangeFilter` |
| Behavior.RangeChangeAsWrittenFails | src/selectionBehavior.ts:160 | with the callbacks the visual defines, a range with a truthy end fails at the target callback |
| Behavior.StyleItems | src/selectionBehavior.ts:140-149 | one background per item, in order: the selected colour for a selected or in-range item, the unselected colour otherwise |
| Behavior.StyledSelectedIff | src/selectionBehavior.ts:144-146 | with distinct colours, an item is drawn selected exactly when it is selected or in range |
| Behavior.SelectionBehavior.constructor | src/selectionBehavior.ts:82-85 | a fresh, inactive range selection and the given callbacks |
| Behavior.SelectionBehavior.BindEvents | src/selectionBehavior.ts:91-99 | stores the points, settings and handler; the range and the applied filters are kept |
| Behavior.SelectionBehavior.Click | src/selectionBehavior.ts:101-111 | a click replaces the range selection by a fresh inactive one whose domain is unset, and toggles the item's identity; the points, settings and applied filters are kept |
| Behavior.SelectionBehavior.ClearAllDiscreteSelections | src/selectionBehavior.ts:129-134 | a bound handler ends with nothing selected |
| Behavior.SelectionBehavior.ClearRangeSelection | src/selectionBehavior.ts:136-138 | the range selection becomes a fresh, unbounded, inactive one; nothing else changes |
| Behavior.SelectionBehavior.StyleSlicerInputs | src/selectionBehavior.ts:140-149 | the backgrounds under the bound settings |
| Behavior.SelectionBehavior.UpdateOnRangeSelectonChange | src/selectionBehavior.ts:151-178 | the discrete selection is cleared; exactly the filter `RangeFilter` gives, if any, is applied; the range is kept |
| WebBehavior.Keys | src/webBehavior.ts:132-134 | one key per selected identity, in order |
| WebBehavior.Identities | src/webBehavior.ts:111-118 | the identities of the points, in order |
| WebBehavior.SavedPoints | src/webBehavior.ts:111-116 | the points whose identity key was persisted, in their order |
| WebBehavior.ToggleAllSnoc | src/webBehavior.ts:117-119 | toggling one more identity after a run of toggles |
| WebBehavior.SavedPointsDistinct | src/webBehavior.ts:111-116 | keeping some of the points keeps their identities distinct |
| WebBehavior.SavedIdentity | src/webBehavior.ts:111-116 | an identity is among the kept points' identities exactly when it is the identity of one of the points and its key was persisted |
| WebBehavior.RestoreSelectsSaved | src/webBehavior.ts:102-124 | with distinct identities, restoring selects the kept points' identities in their order, and an identity is selected exactly when it belongs to one of the points and its key was saved |
| WebBehavior.KeyOfSelected | src/webBehavior.ts:113-114 | an identity's key was persisted exactly when the identity was selected |
| WebBehavior.PersistRestoreRoundTrip | src/webBehavior.ts:102-137 | persisting a selection and restoring it over points that carry each selected identity once gives back the same selected identities |
| WebBehavior.SampleSlicerWebBehavior.constructor | src/webBehavior.ts:46-56 | no points, settings or handler yet; no calls made |
| WebBehavior.SampleSlicerWebBehavior.BindEvents | src/webBehavior.ts:58-70 | stores the options and the handler; unless a selection was already loaded, the persisted selection is restored |
| WebBehavior.SampleSlicerWebBehavior.Click | src/webBehavior.ts:72-85 | the range selection is cleared, the item toggled, the selection applied, and its keys persisted; the points, settings and loaded flag are kept |
| WebBehavior.SampleSlicerWebBehavior.ClearAllSelections | src/webBehavior.ts:89-99 | nothing selected; the empty selection is applied and no keys are persisted; the points, settings and loaded flag are kept |
| WebBehavior.SampleSlicerWebBehavior.RestoreSelectionStateFromPersistedProperties | src/webBehavior.ts:102-124 | without persisted keys nothing changes; otherwise the selection becomes the saved points' identities toggled in order, and it is applied |
| WebBehavior.SampleSlicerWebBehavior.PersistSelectionState | src/webBehavior.ts:126-137 | the persisted keys are the selected identities' keys, in selection order |
| WebBehavior.SampleSlicerWebBehavior.StyleSlicerInputs | src/webBehavior.ts:150-159 | the backgrounds under the bound settings |
| Slicer.LowerChar | src/sampleSlicer.ts:256 | lower-cases an ASCII capital and keeps every other character |
| Slicer.Lower | src/sampleSlicer.ts:256-257 | lower-cases character by character and keeps the length |
| Slicer.SearchNarrows | src/sampleSlicer.ts:255-258 | typing more into the search box never shows an item that was hidden |
| Slicer.SearchKeepsPrefix | src/sampleSlicer.ts:255-258 | any beginning of an item's text, in any letter case, keeps the item visible |
| Slicer.GetSlicerBodyViewport | src/sampleSlicer.ts:304-311 | the body is the viewport less the scrollbar's 17 pixels, each side cut off at 0 |
| Slicer.GetLengthOptional | src/sampleSlicer.ts:284-289 | a missing identity list has length 0 |
| Slicer.FormatValue | src/sampleSlicer.ts:273-275 | a missing value formats as the empty string, a present one through the formatter |
| Slicer.SameCategoryIdentitySymmetric | src/sampleSlicer.ts:313-347 | comparing category identities does not depend on the order of the two data views |
| Slicer.SameCategoryIdentityReflexive | src/sampleSlicer.ts:313-347 | a data view agrees with itself exactly when every category carries a non-empty identity list |
| Slicer.PersistedSelectionState | src/sampleSlicer.ts:973-979 | parsing failures, falsy results and missing data all give no identities; otherwise the parsed identities |
| Slicer.Split | src/sampleSlicer.ts:738 | `split` gives at least one part, none containing the separator, and joining the parts gives the text back |
| Slicer.FirstIndex | src/sampleSlicer.ts:738 | the position of the first separator |
| Slicer.SplitJoin | src/sampleSlicer.ts:738 | splitting undoes joining parts that do not contain the separator |
| Slicer.FindColumnFilter | src/sampleSlicer.ts:736-744 | `find` gives the first "And" filter on the column, or none exactly when no filter matches |
| Slicer.FirstConditionValue | src/sampleSlicer.ts:747-748 | `find` gives the value of the first condition with the operator, or none exactly when there is none |
| Slicer.RestoredRange | src/sampleSlicer.ts:732-760 | a range is restored only when there are JSON filters and metadata |
| Slicer.RestoreUndoesRangeFilter | src/sampleSlicer.ts:732-760 | the filter a range change sends (on a `table.column` query name) is restored as the same range, with falsy ends coming back null |
| Slicer.SampleSlicer.constructor | src/sampleSlicer.ts:353-366 | a behaviour with a fresh, inactive range, bound to the host's column target; no viewport, data view, filters or slicer data |
| Slicer.SampleSlicer.Converter | src/sampleSlicer.ts:210-267 | no data exactly for a data view without category values; otherwise the converter's points with `filtered` set by the lower-cased prefix search, the first category's name, and the domain reset to the values' extent |
| Slicer.SampleSlicer.ApplySearch | src/sampleSlicer.ts:255-258 | every point keeps its place and its fields, except that it is hidden exactly when its lower-cased category does not start with the lower-cased search text |
| Slicer.SampleSlicer.HasSameCategoryIdentity | src/sampleSlicer.ts:313-347 | the nested loops decide `SameCategoryIdentity` in both directions |
| Slicer.SampleSlicer.RestoreRangeFilter | src/sampleSlicer.ts:732-760 | the range becomes `RestoredRange` when there is one, and is kept otherwise |
| Slicer.SampleSlicer.UpdateInternal | src/sampleSlicer.ts:468-493 | re-converts the current data view; slicer data are replaced only when it has category values |
| Slicer.SampleSlicer.OnRangeInputTextboxChange | src/sampleSlicer.ts:766-803 | empty or unparsable text reads as null; an unchanged bound does nothing; otherwise the chosen bound takes the value; unless suppressed, the discrete selection is cleared and exactly the range filter of the new range is applied; an unchanged bound or a suppressed filter leaves the selection, the slicer data and the domain as they were; an applied change re-converts, so a data view with category values leaves slicer data; the data view, filters, viewport, search text and waiting flag never change |
| Slicer.SampleSlicer.Update | src/sampleSlicer.ts:372-412 | without options, a first data view or a viewport nothing changes; otherwise filters, data view and viewport are taken; the visual stops waiting for data when the viewport is unchanged; the range becomes the one restored from the new filters when there is one and is kept otherwise; the result is true exactly when the category identities changed; the search text is kept in every case |

## Left out

- The DOM and rendering are not modelled. This covers: element creation, header, search widget, slider and text-box wiring (`initContainer`, `initHeader`, `initRangeSlicer`, `initSearchWidget`, `initTableView`, `enterSelection`, `updateSelection`); style writes; the d3 enter/update/exit of `render`. Only the layout step of `render` is modelled, as `Tables.TableView.Render`.
- The noUiSlider is not modelled. Its change handler is the sequence `SetScaledValue`, `UpdateOnRangeSelectonChange`, `UpdateInternal(false)`, whose parts are modelled. `updateRangeSlicer` and `initNoUISlider` only move `GetScaledValue` and `FormatValue` results into the widgets.
- `renderSelection` is not modelled. It depends on the interactivity service's inverted-selection mode, which lives in the host library. Its other branch is `StyleSlicerInputs`, which is modelled.
- `updateTableView`, and the table-view emptying and rendering inside `updateInternal`, are not modelled. The visual does not own a table view in this model.
- Reading the persisted settings out of `dataView.metadata.objects` is not modelled. This covers `selection`, `rangeSelectionStart`, `rangeSelectionEnd` and `filter`. It also covers the converter writing them into the shared default settings object, and its unguarded access to `dataView.metadata`. The settings are the value `Values.Settings`. src/settings.ts is not part of this model.
- Slicer.SampleSlicer.Update and Slicer.SampleSlicer.UpdateInternal: they only state that slicer data exist after converting a data view with category values. What the data hold is stated by `Slicer.SampleSlicer.Converter`. The range they leave is stated in full.
- The column target comes from a host service and is modelled as the constant `Host.columnTarget`. `interactivityFilterService.extractFilterColumnTarget` is not part of this model.
- Applying a filter to the host is modelled as appending it to `appliedFilters`. The host's `applyJsonFilter` is not part of this model.
- The web behaviour's persisted property store is modelled as its `persistedKeys` field. Its calls to the host are recorded in `calls`. The behaviour's `slicerSettings.general` persistence object is not part of this model.
- Both behaviours' click listeners call the handler captured by `bindEvents`. The model calls the handler the behaviour holds, which is the same object as long as `BindEvents` is the only method that sets it.
- `JSON.parse` is a parameter returning `Parsed`. `parseFloat` is a parameter returning `None` for NaN. `Number.prototype.toString`, the value formatter and the selection-id builder are parameters too.
- ScalableRanges.ScalableRange.SetScaledValue: an interior slider position (neither 0 nor 100) needs a proper domain. A click installs a fresh range whose domain stays unset until the next update re-converts. On that unset domain the source has no scale, so an interior position throws a TypeError at src/scalableRange.ts:93-94. The model requires a proper domain for that case and does not model the throw. The end positions are modelled on any domain.
- Floating point is not modelled: rounding, NaN and infinities are out of scope. The d3 scale is exact over the reals, and a degenerate domain (min not below max) is excluded wherever the scale is used.
- `toLowerCase` is modelled on ASCII letters only.
- Category values are numbers, and lodash's `isEqual` on identity keys is Dafny equality on `string` keys.
- Tables.TableView.constructor: `SetDefaultOptions` writes only into the caller's options object, so it has no effect on the view's copy. The view's stored counts start at 0.
- `addDataToArray`'s guard against a missing array or missing data cannot fail here, because both are sequences.
- Tables.GroupedCoversItems and Tables.RowsSpreadEvenly: the layout properties are proved only for non-negative row and column counts. Negative counts are modelled with `slice`'s semantics, but nothing is proved about them.
- `getSampleTextProperties`, `createElement`, `appendInputElement` and `enumerateObjectInstances` are not modelled. They only build DOM or formatting objects.

## Findings

| source | as written | input that shows it | evidently intended | confidence | as-written member | corrected member |
|---|---|---|---|---|---|---|
| src/selectionBehavior.ts:160 | a range change asks the callbacks for `getAdvancedFilterColumnTarget` and then `applyAdvancedFilter`. The callback object built at src/sampleSlicer.ts:961-982 defines only `getFilterColumnTarget` and `applyFilter`, so the call fails before any filter is applied. | the range `{min: 1, max: null}` | call `getFilterColumnTarget` and `applyFilter`, so that the "And" filter reaches the host | not executed; high that the names differ, and a type check would also reject the call | Behavior.RangeChangeAsWrittenFails | Behavior.SelectionBehavior.UpdateOnRangeSelectonChange |
