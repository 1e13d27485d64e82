/** Value types shared by the slicer's components: optional numbers, the raw
    and scaled ranges, data points, the host's filter payloads, the shape of
    the host's data view, and the host services the core calls but whose
    code is not part of this model. */
module Values {

  datatype Option<+T> = None | Some(value: T)

  /** A `ValueRange<number>`: either end may be null. Used both for the raw
      filter range and for the 0-100 slider position. */
  datatype ValueRange = ValueRange(min: Option<real>, max: Option<real>)

  const Unbounded: ValueRange := ValueRange(None, None)

  /** JavaScript truthiness of a nullable number: null and 0 are falsy. */
  predicate Truthy(x: Option<real>) {
    x.Some? && x.value != 0.0
  }

  /** A host selection identity; `key` is what `getKey()` returns. */
  datatype SelectionId = SelectionId(key: string)

  /** One selectable slicer item. */
  datatype DataPoint = DataPoint(
    identity: SelectionId,
    category: string,
    selected: bool,
    filtered: bool,
    isSelectedRangePoint: bool)

  // ---- filter payloads exchanged with the host ----

  /** A value inside a basic filter's `values` list: strict equality tells
      the string "5" and the number 5 apart. */
  datatype FilterValue = Text(text: string) | Number(number: real)

  datatype Target = Target(table: string, column: string)

  datatype Condition = Condition(operator: string, value: real)

  /** A JSON filter: a basic one (`operator`, `values`) or an advanced one
      (`logicalOperator`, `conditions`). Fields the host may leave out are
      optional. */
  datatype Filter =
    | BasicFilter(target: Option<Target>, operator: string, values: Option<seq<FilterValue>>)
    | AdvancedFilter(target: Option<Target>, logicalOperator: string, conditions: Option<seq<Condition>>)

  const OperatorIn := "In"
  const OperatorGreaterThan := "GreaterThan"
  const OperatorLessThan := "LessThan"
  const LogicalAnd := "And"

  // ---- the host's data view, reduced to what the core reads ----

  /** One identity entry of a category column; only its key is compared. */
  datatype IdentityEntry = IdentityEntry(key: string)

  datatype CategoryColumn = CategoryColumn(
    displayName: string,
    values: Option<seq<real>>,
    identity: Option<seq<IdentityEntry>>)

  datatype Categorical = Categorical(categories: Option<seq<CategoryColumn>>)

  datatype MetadataColumn = MetadataColumn(queryName: Option<string>)

  datatype Metadata = Metadata(columns: Option<seq<MetadataColumn>>)

  datatype DataView = DataView(categorical: Option<Categorical>, metadata: Option<Metadata>)

  /** The values of the first category column, when there is one. */
  function FirstCategoryValues(categorical: Categorical): Option<seq<real>> {
    if categorical.categories.Some? && |categorical.categories.value| > 0
    then categorical.categories.value[0].values
    else None
  }

  datatype Viewport = Viewport(height: real, width: real)

  // ---- settings ----

  /** The part of the visual's settings the core reads. */
  datatype Settings = Settings(
    columns: int,
    rows: int,
    textHeight: real,
    textWidth: real,
    selectedColor: string,
    unselectedColor: string)

  const DefaultSettings: Settings := Settings(3, 0, 0.0, 0.0, "#BDD7EE", "#ffffff")

  // ---- services of the host and of the JavaScript runtime ----

  /** Services whose code is outside the model, given as functions:
      the host's selection-id builder for the category row at an index,
      `Number.prototype.toString`, `parseFloat` (None for NaN), and the
      host's filter-column target for the slicer's column. */
  datatype Host = Host(
    selectionIdFor: nat -> SelectionId,
    numberText: real -> string,
    parseFloat: string -> Option<real>,
    columnTarget: Target)

  // ---- d3.min / d3.max over numeric category values ----

  /** `d3.min`: the least value, or none (undefined) for an empty list. */
  function MinOf(values: seq<real>): (m: Option<real>)
    ensures m.None? <==> values == []
    ensures m.Some? ==> m.value in values && forall v | v in values :: m.value <= v
  {
    if values == [] then None
    else
      assert forall v | v in values :: v == values[0] || v in values[1..];
      match MinOf(values[1..])
      case None => Some(values[0])
      case Some(rest) => Some(if values[0] <= rest then values[0] else rest)
  }

  /** `d3.max`: the greatest value, or none (undefined) for an empty list. */
  function MaxOf(values: seq<real>): (m: Option<real>)
    ensures m.None? <==> values == []
    ensures m.Some? ==> m.value in values && forall v | v in values :: v <= m.value
  {
    if values == [] then None
    else
      assert forall v | v in values :: v == values[0] || v in values[1..];
      match MaxOf(values[1..])
      case None => Some(values[0])
      case Some(rest) => Some(if values[0] >= rest then values[0] else rest)
  }
}
