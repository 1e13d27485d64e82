/** The table view's layout: how the flat list of slicer items is cut into
    rows of cells from the configured row and column counts, and the counts
    the view reports after a render. The DOM part of rendering is not
    modelled; `Render` is its layout step. */
module Tables {
  import opened Values

  // ---- JavaScript number helpers ----

  /** `Math.ceil`. */
  function Ceil(x: real): (c: int)
    ensures (c as real) - 1.0 < x <= c as real
  {
    -((-x).Floor)
  }

  /** `Math.ceil(a / b)` for a positive divisor, in exact arithmetic. */
  function CeilDiv(a: int, b: int): (c: int)
    requires b > 0
    ensures b * (c - 1) < a <= b * c
  {
    var c := (a + b - 1) / b;
    assert b * (c - 1) == b * c - b;
    c
  }

  /** `Math.floor(a / b)` for a positive divisor: Dafny's `/` rounds down
      when the divisor is positive. */
  function FloorDiv(a: int, b: int): (f: int)
    requires b > 0
    ensures b * f <= a < b * (f + 1)
  {
    var f := a / b;
    assert b * (f + 1) == b * f + b;
    f
  }

  /** A multiple of `b` strictly between `-b` and `b` is zero. */
  lemma SmallMultiple(b: int, x: int)
    requires b > 0 && -b < b * x < b
    ensures x == 0
  {
  }

  /** For a non-negative dividend, `Math.floor(a / b)` is Dafny's `a / b`,
      and `Math.ceil(a / b)` exceeds it by one exactly when `b` does not
      divide `a`. */
  lemma {:induction false} DivisionAgrees(a: int, b: int)
    requires a >= 0 && b > 0
    ensures FloorDiv(a, b) == a / b
    ensures CeilDiv(a, b) == a / b + (if a % b == 0 then 0 else 1)
    ensures a == b * (a / b) + a % b
  {
    var f, c := FloorDiv(a, b), CeilDiv(a, b);
    assert b * (f - a / b) == b * f - b * (a / b);
    SmallMultiple(b, f - a / b);
    if a % b == 0 {
      assert b * (c - a / b) == b * c - b * (a / b);
      SmallMultiple(b, c - a / b);
    } else {
      assert b * (c - a / b - 1) == b * c - b * (a / b) - b;
      SmallMultiple(b, c - a / b - 1);
    }
  }

  // ---- slices and groups ----

  function Min(a: int, b: int): int {
    if a < b then a else b
  }

  /** A slice index as `Array.prototype.slice` resolves it: a negative
      index counts from the end; the result is clamped to [0, n]. */
  function SliceIndex(i: int, n: nat): (r: nat)
    ensures r <= n
    ensures 0 <= i ==> r == Min(i, n)
  {
    if i < 0 then (if n + i > 0 then n + i else 0)
    else if i < n then i else n
  }

  /** `s.slice(start, end)`. */
  function Slice<T>(s: seq<T>, start: int, end: int): (r: seq<T>)
    ensures 0 <= start <= end ==> r == s[Min(start, |s|)..Min(end, |s|)]
    ensures |r| <= |s|
  {
    var lo, hi := SliceIndex(start, |s|), SliceIndex(end, |s|);
    if lo < hi then s[lo..hi] else []
  }

  /** The items of the groups, in order. */
  function Flatten<T>(groups: seq<seq<T>>): seq<T> {
    if groups == [] then [] else Flatten(groups[..|groups| - 1]) + groups[|groups| - 1]
  }

  predicate AllNonEmpty<T>(groups: seq<seq<T>>) {
    forall j | 0 <= j < |groups| :: |groups[j]| > 0
  }

  /** Appends `data.slice(start, end)` as a new group unless it is empty. */
  function AddDataToArray<T>(groups: seq<seq<T>>, data: seq<T>, start: int, end: int): (r: seq<seq<T>>)
    ensures |groups| <= |r| <= |groups| + 1 && r[..|groups|] == groups
    ensures |r| == |groups| + 1 <==> |Slice(data, start, end)| > 0
    ensures AllNonEmpty(groups) ==> AllNonEmpty(r)
  {
    var elements := Slice(data, start, end);
    if |elements| > 0 then
      assert (groups + [elements])[..|groups|] == groups;
      groups + [elements]
    else
      groups
  }

  /** Adding a group appends exactly the sliced items to the flattened
      groups. */
  lemma AddDataToArrayFlatten<T>(groups: seq<seq<T>>, data: seq<T>, start: int, end: int)
    ensures Flatten(AddDataToArray(groups, data, start, end)) == Flatten(groups) + Slice(data, start, end)
  {
    var elements := Slice(data, start, end);
    if |elements| > 0 {
      assert (groups + [elements])[..|groups|] == groups;
    }
  }

  // ---- the layout rules ----

  /** Row and column counts. */
  datatype Layout = Layout(rows: int, columns: int)

  /** The counts `setTotalRows` derives from `n` items and the configured
      counts: each is capped at `n`; a missing one (not positive) is
      derived from the other by rounding up, and with neither there is one
      column. Unless both are given, the grid has room for every item. */
  function Totals(n: nat, configuredRows: int, configuredColumns: int): (l: Layout)
    ensures var r, c := Min(configuredRows, n), Min(configuredColumns, n);
      && (r > 0 && c > 0 ==> l == Layout(r, c))
      && (!(r > 0 && c > 0) ==> l.rows * l.columns >= n)
      && (r > 0 ==> l.rows == r) && (c > 0 ==> l.columns == c)
      && (r <= 0 && c <= 0 ==> l == Layout(n, 1))
      && (r > 0 && c <= 0 ==> l.columns == CeilDiv(n, r) && r * (l.columns - 1) < n)
      && (c > 0 && r <= 0 ==> l.rows == CeilDiv(n, c) && c * (l.rows - 1) < n)
  {
    var rows, columns := Min(configuredRows, n), Min(configuredColumns, n);
    if columns > 0 && rows > 0 then Layout(rows, columns)
    else if rows > 0 then Layout(rows, CeilDiv(n, rows))
    else if columns > 0 then Layout(CeilDiv(n, columns), columns)
    else Layout(CeilDiv(n, 1), 1)
  }

  /** The counts `getGroupedData` lays out: each configured count capped at
      `n`; with neither given, one row of `n`; a missing one derived from
      the other by rounding up; a count still zero falls back to the value
      `setTotalRows` stored. */
  function GroupLayout(n: nat, configuredRows: int, configuredColumns: int, fallback: Layout): (l: Layout)
    ensures n > 0 && configuredRows >= 0 && configuredColumns >= 0 ==>
      l.rows > 0 && l.columns > 0 &&
      (configuredRows > 0 && configuredColumns > 0 ==>
        l == Layout(Min(configuredRows, n), Min(configuredColumns, n))) &&
      (!(configuredRows > 0 && configuredColumns > 0) ==> l.rows * l.columns >= n)
  {
    var derived := DerivedLayout(n, configuredRows, configuredColumns);
    Layout(if derived.rows == 0 then fallback.rows else derived.rows,
           if derived.columns == 0 then fallback.columns else derived.columns)
  }

  /** The counts `getGroupedData` derives before falling back to the
      stored ones. */
  function DerivedLayout(n: nat, configuredRows: int, configuredColumns: int): Layout {
    var rows := if configuredRows > n then n else configuredRows;
    var columns := if configuredColumns > n then n else configuredColumns;
    if columns == 0 && rows == 0 then Layout(1, n)
    else if columns == 0 && rows > 0 then Layout(rows, CeilDiv(n, rows))
    else if columns > 0 && rows == 0 then Layout(CeilDiv(n, columns), columns)
    else Layout(rows, columns)
  }

  /** The remainder-spreading case: no column count and a row count that
      does not divide the items (JavaScript's `%` agrees with Dafny's for a
      non-negative dividend; `n % 0` is NaN, which is not positive). */
  predicate SpreadMode(n: nat, configuredRows: int, configuredColumns: int) {
    configuredColumns == 0 && configuredRows != 0 && n % configuredRows > 0 && configuredRows <= n
  }

  /** Where group `j` starts. Spreading over `rows` rows, the first
      `n % rows` groups take `ceil(n / rows)` items and the others
      `floor(n / rows)`; otherwise every group takes `columns` items. */
  function Boundary(j: nat, spread: bool, n: nat, rows: int, columns: int): int {
    if spread && rows > 0 then SpreadBoundary(j, n % rows, CeilDiv(n, rows), FloorDiv(n, rows))
    else j * columns
  }

  /** Where group `j` of a spread starts: the first `remainder` groups take
      `q` items each, the later ones `f`. */
  function SpreadBoundary(j: nat, remainder: int, q: int, f: int): int {
    if j <= remainder then j * q else remainder * q + (j - remainder) * f
  }

  /** The first group starts at the first item. */
  lemma FirstBoundary(spread: bool, n: nat, rows: int, columns: int)
    ensures Boundary(0, spread, n, rows, columns) == 0
  {
    if spread && rows > 0 {
      assert SpreadBoundary(0, n % rows, CeilDiv(n, rows), FloorDiv(n, rows)) == 0 * CeilDiv(n, rows);
    }
  }

  /** The groups after `i` rounds of the layout loop: round `j` adds the
      items between `bounds(j)` and `bounds(j + 1)`, if any. */
  function GroupsAfter<T>(items: seq<T>, bounds: nat -> int, i: nat): (r: seq<seq<T>>)
    ensures |r| <= i
    ensures AllNonEmpty(r)
  {
    if i == 0 then []
    else AddDataToArray(GroupsAfter(items, bounds, i - 1), items, bounds(i - 1), bounds(i))
  }

  /** The boundaries of the layout loop's rounds. */
  function BoundsOf(spread: bool, n: nat, rows: int, columns: int): nat -> int {
    (j: nat) => Boundary(j, spread, n, rows, columns)
  }

  /** One more round of the layout loop adds the items between the round's
      two boundaries. */
  lemma GroupsAfterStep<T>(items: seq<T>, spread: bool, rows: int, columns: int, i: nat, lo: int, hi: int)
    requires lo == Boundary(i, spread, |items|, rows, columns)
    requires hi == Boundary(i + 1, spread, |items|, rows, columns)
    ensures GroupsAfter(items, BoundsOf(spread, |items|, rows, columns), i + 1) ==
      AddDataToArray(GroupsAfter(items, BoundsOf(spread, |items|, rows, columns), i), items, lo, hi)
  {
  }

  /** Round `i` of a spread adds the items in [lo, hi). */
  ghost predicate SpreadRound<T>(items: seq<T>, rows: int, columns: int, i: nat, lo: int, hi: int) {
    var bounds := BoundsOf(true, |items|, rows, columns);
    && lo == Boundary(i, true, |items|, rows, columns)
    && hi == Boundary(i + 1, true, |items|, rows, columns)
    && GroupsAfter(items, bounds, i + 1) == AddDataToArray(GroupsAfter(items, bounds, i), items, lo, hi)
  }

  /** The loop's two kinds of spread round: while `i < n % rows` it takes
      [i * ceil(n / rows), that + ceil(n / rows)); afterwards it takes
      `floor(n / rows)` items from where the previous round stopped. */
  lemma SpreadRoundHolds<T>(items: seq<T>, rows: int, columns: int, i: nat, lo: int, hi: int)
    requires 0 < rows <= |items| && |items| % rows > 0
    requires |items| % rows > i ==>
      lo == i * CeilDiv(|items|, rows) && hi == lo + CeilDiv(|items|, rows)
    requires |items| % rows <= i ==>
      lo == Boundary(i, true, |items|, rows, columns) && hi == lo + FloorDiv(|items|, rows)
    ensures SpreadRound(items, rows, columns, i, lo, hi)
  {
    var n := |items|;
    SpreadQuotients(n, rows);
    SpreadBoundaryStep(i, n % rows, CeilDiv(n, rows), FloorDiv(n, rows));
    GroupsAfterStep(items, true, rows, columns, i, lo, hi);
  }

  /** Without spreading, round `i` takes `columns` items from `i * columns`. */
  lemma ColumnRoundHolds<T>(items: seq<T>, rows: int, columns: int, i: nat)
    ensures var bounds := BoundsOf(false, |items|, rows, columns);
      GroupsAfter(items, bounds, i + 1) ==
        AddDataToArray(GroupsAfter(items, bounds, i), items, i * columns, i * columns + columns)
  {
    assert i * columns + columns == (i + 1) * columns;
    GroupsAfterStep(items, false, rows, columns, i, i * columns, i * columns + columns);
  }

  /** What `getGroupedData` returns, given the stored fallback counts. */
  function Grouped<T>(items: seq<T>, configuredRows: int, configuredColumns: int, fallback: Layout): seq<seq<T>> {
    var l := GroupLayout(|items|, configuredRows, configuredColumns, fallback);
    var spread := SpreadMode(|items|, configuredRows, configuredColumns);
    GroupsAfter(items, BoundsOf(spread, |items|, configuredRows, l.columns), if l.rows > 0 then l.rows else 0)
  }

  // ---- properties of the grouping loop ----

  /** With no items there are no groups. */
  lemma {:induction false} NoItemsNoGroups<T>(items: seq<T>, bounds: nat -> int, i: nat)
    requires items == []
    ensures GroupsAfter(items, bounds, i) == []
  {
    if i > 0 {
      NoItemsNoGroups(items, bounds, i - 1);
    }
  }

  /** Boundary `j` is non-negative and boundary `j + 1` does not lie
      before it. */
  predicate NonDecreasingAt(bounds: nat -> int, j: nat) {
    0 <= bounds(j) <= bounds(j + 1)
  }

  /** Boundary `j + 1` lies strictly after boundary `j`, both within
      [0, n]. */
  predicate IncreasingWithin(bounds: nat -> int, j: nat, n: nat) {
    0 <= bounds(j) < bounds(j + 1) <= n
  }

  /** With boundaries that start at 0 and never decrease, the groups hold
      the items up to the last boundary, in order, each taken once. */
  lemma {:induction false} GroupsArePrefix<T>(items: seq<T>, bounds: nat -> int, i: nat)
    requires bounds(0) == 0
    requires forall j: nat | j < i :: NonDecreasingAt(bounds, j)
    ensures Flatten(GroupsAfter(items, bounds, i)) == Slice(items, 0, bounds(i))
  {
    if i == 0 {
      assert Slice(items, 0, bounds(0)) == [];
    } else {
      var before := GroupsAfter(items, bounds, i - 1);
      assert GroupsAfter(items, bounds, i) == AddDataToArray(before, items, bounds(i - 1), bounds(i));
      GroupsArePrefix(items, bounds, i - 1);
      AddDataToArrayFlatten(before, items, bounds(i - 1), bounds(i));
      assert NonDecreasingAt(bounds, i - 1);
      SliceConcat(items, bounds(i - 1), bounds(i));
    }
  }

  /** Two adjacent slices from the start make one. */
  lemma SliceConcat<T>(items: seq<T>, lo: int, hi: int)
    requires 0 <= lo <= hi
    ensures Slice(items, 0, lo) + Slice(items, lo, hi) == Slice(items, 0, hi)
  {
    assert items[..Min(lo, |items|)] + items[Min(lo, |items|)..Min(hi, |items|)] == items[..Min(hi, |items|)];
  }

  /** With strictly increasing boundaries inside the items, round `j` adds
      exactly the items between boundaries `j` and `j + 1`. */
  lemma {:induction false} GroupsExact<T>(items: seq<T>, bounds: nat -> int, i: nat)
    requires forall j: nat | j < i :: IncreasingWithin(bounds, j, |items|)
    ensures |GroupsAfter(items, bounds, i)| == i
    ensures forall j | 0 <= j < i :: GroupsAfter(items, bounds, i)[j] == Slice(items, bounds(j), bounds(j + 1))
  {
    GroupsCount(items, bounds, i);
    forall j | 0 <= j < i ensures GroupsAfter(items, bounds, i)[j] == Slice(items, bounds(j), bounds(j + 1)) {
      GroupStable(items, bounds, i, j);
      GroupsCount(items, bounds, j);
      var next := j + 1;
      GroupsAfterSnoc(items, bounds, next);
      assert GroupsAfter(items, bounds, next) ==
        GroupsAfter(items, bounds, j) + [Slice(items, bounds(j), bounds(next))];
    }
  }

  /** With increasing boundaries, every round adds a group. */
  lemma {:induction false} GroupsCount<T>(items: seq<T>, bounds: nat -> int, i: nat)
    requires forall j: nat | j < i :: IncreasingWithin(bounds, j, |items|)
    ensures |GroupsAfter(items, bounds, i)| == i
  {
    if i > 0 {
      GroupsCount(items, bounds, i - 1);
      GroupsAfterSnoc(items, bounds, i);
    }
  }

  /** With increasing boundaries, later rounds leave group `j` as round `j`
      made it. */
  lemma {:induction false} GroupStable<T>(items: seq<T>, bounds: nat -> int, i: nat, j: nat)
    requires forall j: nat | j < i :: IncreasingWithin(bounds, j, |items|)
    requires j < i == |GroupsAfter(items, bounds, i)|
    ensures j < |GroupsAfter(items, bounds, j + 1)|
    ensures GroupsAfter(items, bounds, i)[j] == GroupsAfter(items, bounds, j + 1)[j]
  {
    if j + 1 < i {
      var before := GroupsAfter(items, bounds, i - 1);
      GroupsAfterSnoc(items, bounds, i);
      assert |before| == i - 1;
      GroupStable(items, bounds, i - 1, j);
      assert (before + [Slice(items, bounds(i - 1), bounds(i))])[j] == before[j];
    } else {
      assert i == j + 1;
    }
  }

  /** A round between increasing boundaries adds exactly its items. */
  lemma GroupsAfterSnoc<T>(items: seq<T>, bounds: nat -> int, i: nat)
    requires 0 < i && IncreasingWithin(bounds, i - 1, |items|)
    ensures GroupsAfter(items, bounds, i) ==
      GroupsAfter(items, bounds, i - 1) + [Slice(items, bounds(i - 1), bounds(i))]
  {
  }




  // ---- arithmetic of the boundaries ----

  /** Without spreading, boundaries start at 0 and never decrease for a
      non-negative column count. */
  lemma ColumnBoundaryMonotone(j: nat, columns: int)
    requires columns >= 0
    ensures 0 <= j * columns <= (j + 1) * columns
  {
    assert (j + 1) * columns == j * columns + columns;
  }

  /** The quotients of a spread: with `0 < rows <= n`, `floor(n / rows)` is
      at least 1, and `ceil(n / rows)` exceeds it by one exactly when there
      is a remainder, which the spread's groups then absorb. */
  lemma SpreadQuotients(n: nat, rows: int)
    requires 0 < rows <= n
    ensures FloorDiv(n, rows) >= 1
    ensures CeilDiv(n, rows) == FloorDiv(n, rows) + (if n % rows == 0 then 0 else 1)
    ensures n == rows * FloorDiv(n, rows) + n % rows
  {
    DivisionAgrees(n, rows);
  }

  /** A spread grows by `q` for each of its first `remainder` steps and by
      `f` afterwards. */
  lemma SpreadBoundaryStep(j: nat, remainder: int, q: int, f: int)
    requires 0 <= remainder && 0 <= f <= q
    ensures 0 <= SpreadBoundary(j, remainder, q, f)
    ensures SpreadBoundary(j + 1, remainder, q, f) - SpreadBoundary(j, remainder, q, f) ==
      if j < remainder then q else f
  {
    if j + 1 <= remainder {
      assert (j + 1) * q == j * q + q;
    } else if j == remainder {
      assert j * q == remainder * q + (j - remainder) * f;
      assert remainder * q + (j + 1 - remainder) * f == remainder * q + f;
    } else {
      assert remainder * q >= 0 && (j - remainder) * f >= 0;
      assert (j + 1 - remainder) * f == (j - remainder) * f + f;
    }
  }

  /** A spread's boundaries never decrease across any span. */
  lemma {:induction false} SpreadBoundaryUpTo(j: nat, k: nat, remainder: int, q: int, f: int)
    requires j <= k
    requires 0 <= remainder && 0 <= f <= q
    ensures SpreadBoundary(j, remainder, q, f) <= SpreadBoundary(k, remainder, q, f)
    decreases k - j
  {
    if j < k {
      SpreadBoundaryStep(j, remainder, q, f);
      SpreadBoundaryUpTo(j + 1, k, remainder, q, f);
    }
  }

  /** A spread of `n = rows * f + remainder` items, `q = f + 1`, ends at `n`. */
  lemma SpreadBoundaryEnd(rows: int, remainder: int, q: int, f: int)
    requires 0 <= remainder < rows && q == f + 1
    ensures SpreadBoundary(rows, remainder, q, f) == rows * f + remainder
  {
    assert remainder * q == remainder * f + remainder;
    assert (rows - remainder) * f == rows * f - remainder * f;
  }

  /** One step of a spread over the items: `ceil(n / rows)` items for each
      of the first `n % rows` steps, then `floor(n / rows)`, never past `n`. */
  lemma SpreadStep(j: nat, n: nat, rows: int, columns: int)
    requires 0 < rows <= n && n % rows > 0 && j < rows
    ensures 0 <= Boundary(j, true, n, rows, columns)
    ensures Boundary(j + 1, true, n, rows, columns) - Boundary(j, true, n, rows, columns) ==
      if j < n % rows then CeilDiv(n, rows) else FloorDiv(n, rows)
    ensures Boundary(j + 1, true, n, rows, columns) <= n
  {
    SpreadQuotients(n, rows);
    var q, f, remainder := CeilDiv(n, rows), FloorDiv(n, rows), n % rows;
    SpreadBoundaryStep(j, remainder, q, f);
    SpreadBoundaryUpTo(j + 1, rows, remainder, q, f);
    SpreadBoundaryEnd(rows, remainder, q, f);
  }

  /** Spreading over `rows` rows ends exactly at the last item. */
  lemma SpreadEnd(n: nat, rows: int, columns: int)
    requires 0 < rows <= n && n % rows > 0
    ensures Boundary(rows, true, n, rows, columns) == n
  {
    SpreadQuotients(n, rows);
    SpreadBoundaryEnd(rows, n % rows, CeilDiv(n, rows), FloorDiv(n, rows));
  }

  /** Spread boundaries start at 0 and never decrease. */
  lemma SpreadMonotone(j: nat, n: nat, rows: int, columns: int)
    requires 0 < rows
    ensures Boundary(0, true, n, rows, columns) == 0
    ensures 0 <= Boundary(j, true, n, rows, columns) <= Boundary(j + 1, true, n, rows, columns)
  {
    var q, f := CeilDiv(n, rows), FloorDiv(n, rows);
    assert 0 * q == 0;
    DivisionAgrees(n, rows);
    SpreadBoundaryStep(j, n % rows, q, f);
  }

  // ---- properties of the layout ----

  /** Every group `getGroupedData` returns is non-empty, the groups hold a
      prefix of the items in order, and they hold all the items unless both
      a row and a column count are given (then items beyond rows × columns
      are dropped). */
  lemma GroupedCoversItems<T>(items: seq<T>, configuredRows: int, configuredColumns: int, fallback: Layout)
    requires configuredRows >= 0 && configuredColumns >= 0
    ensures AllNonEmpty(Grouped(items, configuredRows, configuredColumns, fallback))
    ensures Flatten(Grouped(items, configuredRows, configuredColumns, fallback)) <= items
    ensures !(configuredRows > 0 && configuredColumns > 0) ==>
      Flatten(Grouped(items, configuredRows, configuredColumns, fallback)) == items
    ensures configuredRows > 0 && configuredColumns > 0 ==>
      Flatten(Grouped(items, configuredRows, configuredColumns, fallback)) ==
        Slice(items, 0, Min(configuredRows, |items|) * Min(configuredColumns, |items|))
  {
    GroupedPrefix(items, configuredRows, configuredColumns, fallback);
    if configuredRows > 0 && configuredColumns > 0 {
      GridKeepsFirst(items, configuredRows, configuredColumns, fallback);
    }
  }

  /** The groups hold a prefix of the items, and all of them unless both
      counts are given. */
  lemma GroupedPrefix<T>(items: seq<T>, configuredRows: int, configuredColumns: int, fallback: Layout)
    requires configuredRows >= 0 && configuredColumns >= 0
    ensures Flatten(Grouped(items, configuredRows, configuredColumns, fallback)) <= items
    ensures !(configuredRows > 0 && configuredColumns > 0) ==>
      Flatten(Grouped(items, configuredRows, configuredColumns, fallback)) == items
  {
    var n := |items|;
    var l := GroupLayout(n, configuredRows, configuredColumns, fallback);
    var spread := SpreadMode(n, configuredRows, configuredColumns);
    var bounds := BoundsOf(spread, n, configuredRows, l.columns);
    var count := if l.rows > 0 then l.rows else 0;
    assert Grouped(items, configuredRows, configuredColumns, fallback) == GroupsAfter(items, bounds, count);
    if n == 0 {
      NoItemsNoGroups(items, bounds, count);
    } else {
      assert l.rows > 0 && l.columns > 0;
      assert bounds(0) == 0 && forall j: nat | j < count :: NonDecreasingAt(bounds, j) by {
        forall j: nat | j < count
          ensures NonDecreasingAt(bounds, j)
        {
          if spread {
            SpreadMonotone(j, n, configuredRows, l.columns);
          } else {
            ColumnBoundaryMonotone(j, l.columns);
          }
        }
        if spread {
          SpreadMonotone(0, n, configuredRows, l.columns);
        } else {
          assert bounds(0) == 0 * l.columns == 0;
        }
      }
      assert !(configuredRows > 0 && configuredColumns > 0) ==> bounds(count) >= n by {
        if !(configuredRows > 0 && configuredColumns > 0) {
          if spread {
            assert count == configuredRows;
            SpreadEnd(n, configuredRows, l.columns);
          } else {
            assert bounds(count) == l.rows * l.columns;
          }
        }
      }
      GroupsCoverPrefix(items, bounds, count);
    }
  }

  /** With both a row and a column count, the groups hold exactly the first
      rows × columns items (each count capped at the number of items). */
  lemma GridKeepsFirst<T>(items: seq<T>, configuredRows: int, configuredColumns: int, fallback: Layout)
    requires configuredRows > 0 && configuredColumns > 0
    ensures Flatten(Grouped(items, configuredRows, configuredColumns, fallback)) ==
      Slice(items, 0, Min(configuredRows, |items|) * Min(configuredColumns, |items|))
  {
    var n := |items|;
    var r, c := Min(configuredRows, n), Min(configuredColumns, n);
    var bounds := BoundsOf(false, n, configuredRows, c);
    if n == 0 {
      NoItemsGrouped(items, configuredRows, configuredColumns, fallback);
    } else {
      assert GroupLayout(n, configuredRows, configuredColumns, fallback) == Layout(r, c);
      assert !SpreadMode(n, configuredRows, configuredColumns);
      assert Grouped(items, configuredRows, configuredColumns, fallback) == GroupsAfter(items, bounds, r);
      forall j: nat | j < r
        ensures NonDecreasingAt(bounds, j)
      {
        ColumnBoundaryMonotone(j, c);
      }
      assert bounds(0) == 0 * c == 0;
      GroupsArePrefix(items, bounds, r);
      assert bounds(r) == r * c;
    }
  }

  /** Boundaries that start at 0 and never decrease lay out a prefix of the
      items, and all of them once the last boundary reaches their count. */
  lemma GroupsCoverPrefix<T>(items: seq<T>, bounds: nat -> int, i: nat)
    requires bounds(0) == 0
    requires forall j: nat | j < i :: NonDecreasingAt(bounds, j)
    ensures Flatten(GroupsAfter(items, bounds, i)) <= items
    ensures bounds(i) >= |items| ==> Flatten(GroupsAfter(items, bounds, i)) == items
  {
    GroupsArePrefix(items, bounds, i);
    assert bounds(i) >= 0 by {
      if i > 0 {
        assert NonDecreasingAt(bounds, i - 1);
      }
    }
    if bounds(i) >= |items| {
      assert items[..Min(bounds(i), |items|)] == items;
    }
  }


  /** With no column count and a row count `rows` in (0, n], there are
      exactly `rows` groups covering every item once; the first `n % rows`
      hold `ceil(n / rows)` items and the rest `floor(n / rows)`. */
  lemma RowsSpreadEvenly<T>(items: seq<T>, rows: int, fallback: Layout)
    requires 0 < rows <= |items|
    ensures |Grouped(items, rows, 0, fallback)| == rows
    ensures Flatten(Grouped(items, rows, 0, fallback)) == items
    ensures forall j | 0 <= j < rows ::
      |Grouped(items, rows, 0, fallback)[j]| ==
        if j < |items| % rows then CeilDiv(|items|, rows) else FloorDiv(|items|, rows)
  {
    var n := |items|;
    RowsOnlyLayout(n, rows, fallback);
    assert Grouped(items, rows, 0, fallback) ==
      GroupsAfter(items, BoundsOf(SpreadMode(n, rows, 0), n, rows, CeilDiv(n, rows)), rows);
    RowGroups(items, rows);
    GroupedCoversItems(items, rows, 0, fallback);
  }

  /** The groups of a layout by row count alone: one per row, the first
      `n % rows` of `ceil(n / rows)` items and the rest of `floor(n / rows)`. */
  lemma RowGroups<T>(items: seq<T>, rows: int)
    requires 0 < rows <= |items|
    ensures var groups := GroupsAfter(items, BoundsOf(SpreadMode(|items|, rows, 0), |items|, rows, CeilDiv(|items|, rows)), rows);
      && |groups| == rows
      && forall j | 0 <= j < rows ::
           |groups[j]| == if j < |items| % rows then CeilDiv(|items|, rows) else FloorDiv(|items|, rows)
  {
    var n := |items|;
    var bounds := BoundsOf(SpreadMode(n, rows, 0), n, rows, CeilDiv(n, rows));
    forall j: nat | j < rows
      ensures IncreasingWithin(bounds, j, n)
    {
      RowStep(j, n, rows);
    }
    GroupsExact(items, bounds, rows);
    forall j | 0 <= j < rows
      ensures |GroupsAfter(items, bounds, rows)[j]| == if j < n % rows then CeilDiv(n, rows) else FloorDiv(n, rows)
    {
      RowStep(j, n, rows);
    }
  }

  /** Row `j` of a layout by row count alone: it takes `ceil(n / rows)`
      items while `j < n % rows` and `floor(n / rows)` afterwards, and
      stays within the items. */
  lemma RowStep(j: nat, n: nat, rows: int)
    requires 0 < rows <= n && j < rows
    ensures var bounds := BoundsOf(SpreadMode(n, rows, 0), n, rows, CeilDiv(n, rows));
      && IncreasingWithin(bounds, j, n)
      && bounds(j + 1) - bounds(j) == if j < n % rows then CeilDiv(n, rows) else FloorDiv(n, rows)
  {
    SpreadQuotients(n, rows);
    if SpreadMode(n, rows, 0) {
      SpreadStep(j, n, rows, CeilDiv(n, rows));
    } else {
      EvenStep(j, n, rows);
    }
  }

  /** With no column count and a row count in (0, n], the layout has that
      many rows of `ceil(n / rows)` columns. */
  lemma RowsOnlyLayout(n: nat, rows: int, fallback: Layout)
    requires 0 < rows <= n
    ensures GroupLayout(n, rows, 0, fallback) == Layout(rows, CeilDiv(n, rows))
  {
  }

  /** Without a remainder, each of the `rows` steps takes `n / rows` items,
      never past `n`. */
  lemma EvenStep(j: nat, n: nat, rows: int)
    requires 0 < rows <= n && n % rows == 0 && j < rows
    ensures var q := CeilDiv(n, rows);
      0 <= j * q < (j + 1) * q <= n && (j + 1) * q - j * q == q && q == FloorDiv(n, rows)
  {
    SpreadQuotients(n, rows);
    var q := CeilDiv(n, rows);
    RowProducts(j, rows, q);
  }

  /** Row `j` of `rows` rows of `q` items starts at `j * q` and ends at
      `(j + 1) * q`, within the `rows * q` items. */
  lemma RowProducts(j: nat, rows: int, q: int)
    requires j < rows && q >= 1
    ensures 0 <= j * q && (j + 1) * q == j * q + q && (j + 1) * q <= rows * q
  {
    assert rows * q == (j + 1) * q + (rows - j - 1) * q;
  }

  /** With no items there are no groups, whatever the counts. */
  lemma NoItemsGrouped<T>(items: seq<T>, configuredRows: int, configuredColumns: int, fallback: Layout)
    requires items == []
    ensures Grouped(items, configuredRows, configuredColumns, fallback) == []
  {
    var l := GroupLayout(0, configuredRows, configuredColumns, fallback);
    NoItemsNoGroups(items, BoundsOf(SpreadMode(0, configuredRows, configuredColumns), 0, configuredRows, l.columns),
      if l.rows > 0 then l.rows else 0);
  }

  /** With neither a row nor a column count, all the items form one group
      (none when there are no items). */
  lemma NoCountsOneGroup<T>(items: seq<T>, fallback: Layout)
    ensures Grouped(items, 0, 0, fallback) == if items == [] then [] else [items]
  {
    var n := |items|;
    var l := GroupLayout(n, 0, 0, fallback);
    var bounds := BoundsOf(false, n, 0, l.columns);
    if n == 0 {
      NoItemsNoGroups(items, bounds, if l.rows > 0 then l.rows else 0);
    } else {
      assert l == Layout(1, n);
      assert bounds(1) == 1 * n == n;
      assert bounds(0) == 0 * n == 0;
      assert Slice(items, 0, n) == items;
    }
  }

  // ---- the view ----

  /** The options the view keeps (the DOM container and row callbacks are
      not part of this model). */
  datatype TableViewOptions = TableViewOptions(
    rowHeight: real,
    columnWidth: real,
    rows: int,
    columns: int,
    viewport: Viewport)

  /** What `getGroupedData` returns: the groups and the counts it laid out. */
  datatype TableViewGroupedData<T> = TableViewGroupedData(data: seq<seq<T>>, totalColumns: int, totalRows: int)

  datatype TableViewComputedOptions = TableViewComputedOptions(columns: int, rows: int)

  /** `computed` describes `data`: its row count is the number of groups
      and its column count the longest group's length (0 with no groups). */
  predicate Describes<T>(computed: TableViewComputedOptions, data: seq<seq<T>>) {
    && computed.rows == |data|
    && (forall j | 0 <= j < |data| :: |data[j]| <= computed.columns)
    && (if data == [] then computed.columns == 0
        else exists j | 0 <= j < |data| :: |data[j]| == computed.columns)
  }

  class TableView<T> {
    var options: TableViewOptions
    var items: seq<T>
    /** The counts `setTotalRows` stored. */
    var totalRows: int
    var totalColumns: int
    /** The counts of the last render, none before it. */
    var computedOptions: Option<TableViewComputedOptions>

    /** Keeps a copy of the caller's options; nothing is laid out yet. */
    constructor(options: TableViewOptions)
      ensures this.options == options && items == []
      ensures ComputedRows() == 0 && ComputedColumns() == 0
    {
      this.options := options;
      items := [];
      totalRows := 0;
      totalColumns := 0;
      computedOptions := None;
    }

    /** The column count of the last render, 0 before any. */
    function ComputedColumns(): (columns: int)
      reads this
      ensures computedOptions.None? ==> columns == 0
      ensures computedOptions.Some? ==> columns == computedOptions.value.columns
    {
      if computedOptions.Some? then computedOptions.value.columns else 0
    }

    /** The row count of the last render, 0 before any. */
    function ComputedRows(): (rows: int)
      reads this
      ensures computedOptions.None? ==> rows == 0
      ensures computedOptions.Some? ==> rows == computedOptions.value.rows
    {
      if computedOptions.Some? then computedOptions.value.rows else 0
    }

    method RowHeight(rowHeight: real) returns (view: TableView<T>)
      modifies this
      ensures view == this
      ensures options == old(options).(rowHeight := Ceil(rowHeight) as real)
      ensures items == old(items) && totalRows == old(totalRows) && totalColumns == old(totalColumns)
      ensures computedOptions == old(computedOptions)
    {
      options := options.(rowHeight := Ceil(rowHeight) as real);
      view := this;
    }

    method ColumnWidth(columnWidth: real) returns (view: TableView<T>)
      modifies this
      ensures view == this
      ensures options == old(options).(columnWidth := Ceil(columnWidth) as real)
      ensures items == old(items) && totalRows == old(totalRows) && totalColumns == old(totalColumns)
      ensures computedOptions == old(computedOptions)
    {
      options := options.(columnWidth := Ceil(columnWidth) as real);
      view := this;
    }

    method Rows(rows: real) returns (view: TableView<T>)
      modifies this
      ensures view == this
      ensures options == old(options).(rows := Ceil(rows))
      ensures items == old(items) && totalRows == old(totalRows) && totalColumns == old(totalColumns)
      ensures computedOptions == old(computedOptions)
    {
      options := options.(rows := Ceil(rows));
      view := this;
    }

    method Columns(columns: real) returns (view: TableView<T>)
      modifies this
      ensures view == this
      ensures options == old(options).(columns := Ceil(columns))
      ensures items == old(items) && totalRows == old(totalRows) && totalColumns == old(totalColumns)
      ensures computedOptions == old(computedOptions)
    {
      options := options.(columns := Ceil(columns));
      view := this;
    }

    method Viewport(viewport: Viewport) returns (view: TableView<T>)
      modifies this
      ensures view == this
      ensures options == old(options).(viewport := viewport)
      ensures items == old(items) && totalRows == old(totalRows) && totalColumns == old(totalColumns)
      ensures computedOptions == old(computedOptions)
    {
      options := options.(viewport := viewport);
      view := this;
    }

    /** Stores the items and the counts derived from them. */
    method Data(data: seq<T>) returns (view: TableView<T>)
      modifies this
      ensures view == this
      ensures items == data && options == old(options) && computedOptions == old(computedOptions)
      ensures Layout(totalRows, totalColumns) == Totals(|data|, options.rows, options.columns)
    {
      items := data;
      SetTotalRows();
      view := this;
    }

    /** Drops the items and renders: no rows and no columns remain. */
    method Empty() returns (view: TableView<T>)
      modifies this
      ensures view == this
      ensures items == [] && options == old(options)
      ensures totalRows == old(totalRows) && totalColumns == old(totalColumns)
      ensures ComputedRows() == 0 && ComputedColumns() == 0
    {
      items := [];
      Render();
      NoItemsGrouped(items, options.rows, options.columns, Layout(totalRows, totalColumns));
      view := this;
    }

    method SetTotalRows()
      modifies this
      ensures Layout(totalRows, totalColumns) == Totals(|items|, options.rows, options.columns)
      ensures items == old(items) && options == old(options) && computedOptions == old(computedOptions)
    {
      var count := |items|;
      var rows := Min(options.rows, count);
      var columns := Min(options.columns, count);
      if columns > 0 && rows > 0 {
        totalColumns := columns;
        totalRows := rows;
      } else if rows > 0 {
        totalRows := rows;
        totalColumns := CeilDiv(count, rows);
      } else if columns > 0 {
        totalColumns := columns;
        totalRows := CeilDiv(count, columns);
      } else {
        totalColumns := 1;
        totalRows := CeilDiv(count, 1);
      }
    }

    /** The layout step of `render`: groups the items and records the
        counts of the groups. */
    method Render()
      modifies this
      ensures items == old(items) && options == old(options)
      ensures totalRows == old(totalRows) && totalColumns == old(totalColumns)
      ensures computedOptions.Some? &&
        Describes(computedOptions.value,
          Grouped(items, options.rows, options.columns, Layout(totalRows, totalColumns)))
    {
      var groupedData := GetGroupedData();
    }

    /** Cuts the items into groups: spreading the remainder over the rows
        when only a row count is given and it does not divide the items,
        and otherwise taking `totalColumns` items per row. */
    method GetGroupedData() returns (g: TableViewGroupedData<T>)
      modifies this
      ensures items == old(items) && options == old(options)
      ensures totalRows == old(totalRows) && totalColumns == old(totalColumns)
      ensures Layout(g.totalRows, g.totalColumns) ==
        GroupLayout(|items|, options.rows, options.columns, Layout(totalRows, totalColumns))
      ensures g.data == Grouped(items, options.rows, options.columns, Layout(totalRows, totalColumns))
      ensures computedOptions.Some? && Describes(computedOptions.value, g.data)
    {
      var data, configuredRows, configuredColumns := items, options.rows, options.columns;
      var totalItems := |data|;
      var rowCount := if configuredRows > totalItems then totalItems else configuredRows;
      var columnCount := if configuredColumns > totalItems then totalItems else configuredColumns;

      if columnCount == 0 && rowCount == 0 {
        columnCount := totalItems;
        rowCount := 1;
      } else if columnCount == 0 && rowCount > 0 {
        columnCount := CeilDiv(totalItems, rowCount);
      } else if columnCount > 0 && rowCount == 0 {
        rowCount := CeilDiv(totalItems, columnCount);
      }
      assert Layout(rowCount, columnCount) == DerivedLayout(totalItems, configuredRows, configuredColumns);
      if rowCount == 0 {
        rowCount := totalRows;
      }
      if columnCount == 0 {
        columnCount := totalColumns;
      }
      assert Layout(rowCount, columnCount) ==
        GroupLayout(totalItems, configuredRows, configuredColumns, Layout(totalRows, totalColumns));

      assert SpreadMode(totalItems, configuredRows, configuredColumns) ==> rowCount == configuredRows;
      var groupedData := GroupItems(data, configuredRows, configuredColumns, rowCount, columnCount);

      var computed := GetComputedOptions(groupedData);
      computedOptions := Some(computed);
      g := TableViewGroupedData(groupedData, columnCount, rowCount);
    }

    /** The loop of `getGroupedData`: `rowCount` rounds, each adding one
        non-empty slice of the items. */
    method GroupItems(data: seq<T>, configuredRows: int, configuredColumns: int, rowCount: int, columnCount: int)
      returns (groupedData: seq<seq<T>>)
      requires SpreadMode(|data|, configuredRows, configuredColumns) ==> rowCount == configuredRows
      ensures groupedData == GroupsAfter(data,
        BoundsOf(SpreadMode(|data|, configuredRows, configuredColumns), |data|, configuredRows, columnCount),
        if rowCount > 0 then rowCount else 0)
    {
      ghost var spread := SpreadMode(|data|, configuredRows, configuredColumns);
      ghost var bounds := BoundsOf(spread, |data|, configuredRows, columnCount);
      ghost var rounds: nat := if rowCount > 0 then rowCount else 0;
      groupedData := [];
      var k := 0;
      var i: nat := 0;
      FirstBoundary(spread, |data|, configuredRows, columnCount);
      while i < rowCount
        invariant i <= rounds
        invariant groupedData == GroupsAfter(data, bounds, i)
        invariant spread ==> k == bounds(i)
        decreases rowCount - i
      {
        assert spread ==> i < configuredRows;
        groupedData, k := AddRound(data, configuredRows, configuredColumns, columnCount, spread, bounds, i, k, groupedData);
        i := i + 1;
      }
      assert i == rounds;
    }

    /** Round `i` of the layout loop: adds the items of group `i`, and when
        spreading moves `k` to where the next group starts. */
    method AddRound(data: seq<T>, configuredRows: int, configuredColumns: int, columnCount: int,
                    ghost spread: bool, ghost bounds: nat -> int, i: nat, k: int, groupedData: seq<seq<T>>)
      returns (next: seq<seq<T>>, nextK: int)
      requires spread == SpreadMode(|data|, configuredRows, configuredColumns)
      requires bounds == BoundsOf(spread, |data|, configuredRows, columnCount)
      requires spread ==> i < configuredRows
      requires groupedData == GroupsAfter(data, bounds, i)
      requires spread ==> k == bounds(i)
      ensures next == GroupsAfter(data, bounds, i + 1)
      ensures spread ==> nextK == bounds(i + 1)
    {
      var totalItems := |data|;
      nextK := k;
      if configuredColumns == 0 && configuredRows != 0 && totalItems % configuredRows > 0 && configuredRows <= totalItems {
        if totalItems % configuredRows > i {
          var m := i * CeilDiv(totalItems, configuredRows);
          nextK := m + CeilDiv(totalItems, configuredRows);
          SpreadRoundHolds(data, configuredRows, columnCount, i, m, nextK);
          next := AddDataToArray(groupedData, data, m, nextK);
        } else {
          SpreadRoundHolds(data, configuredRows, columnCount, i, k, k + FloorDiv(totalItems, configuredRows));
          next := AddDataToArray(groupedData, data, k, k + FloorDiv(totalItems, configuredRows));
          nextK := k + FloorDiv(totalItems, configuredRows);
        }
      } else {
        var rowStart := i * columnCount;
        ColumnRoundHolds(data, configuredRows, columnCount, i);
        next := AddDataToArray(groupedData, data, rowStart, rowStart + columnCount);
      }
    }

    /** The number of groups and the longest group's length. */
    method GetComputedOptions(data: seq<seq<T>>) returns (computed: TableViewComputedOptions)
      ensures Describes(computed, data)
    {
      var rows := |data|;
      var columns := 0;
      for i := 0 to rows
        invariant forall j | 0 <= j < i :: |data[j]| <= columns
        invariant if i == 0 then columns == 0 else exists j | 0 <= j < i :: |data[j]| == columns
      {
        var currentRow := data[i];
        if |currentRow| > columns {
          columns := |currentRow|;
        }
      }
      computed := TableViewComputedOptions(columns, rows);
    }
  }
}
