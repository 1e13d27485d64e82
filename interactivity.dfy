/** The host's selection handler, reduced to the list of selected
    identities and the two operations the behaviours call on it:
    a multi-select toggle and a clear. */
module Interactivity {
  import opened Values

  predicate Distinct<T(==)>(s: seq<T>) {
    forall i, j | 0 <= i < j < |s| :: s[i] != s[j]
  }

  /** The identities of `ids` other than `id`, in order. */
  function Remove(ids: seq<SelectionId>, id: SelectionId): (r: seq<SelectionId>)
    ensures forall x :: x in r <==> x in ids && x != id
    ensures Distinct(ids) ==> Distinct(r)
    ensures id !in ids ==> r == ids
  {
    if ids == [] then []
    else
      var rest := Remove(ids[1..], id);
      assert forall x :: x in ids <==> x == ids[0] || x in ids[1..];
      assert Distinct(ids) ==> Distinct(ids[1..]) && ids[0] !in ids[1..] by {
        if Distinct(ids) {
          forall k | 0 <= k < |ids| - 1 ensures ids[1..][k] != ids[0] {
            assert ids[1..][k] == ids[k + 1];
          }
        }
      }
      if ids[0] == id then rest else [ids[0]] + rest
  }

  /** Multi-select toggle: a selected identity is deselected, any other
      identity is added at the end. */
  function Toggle(ids: seq<SelectionId>, id: SelectionId): (r: seq<SelectionId>)
    ensures id in r <==> id !in ids
    ensures forall x | x != id :: x in r <==> x in ids
    ensures Distinct(ids) ==> Distinct(r)
  {
    if id in ids then Remove(ids, id) else ids + [id]
  }

  /** Toggling each of `xs` in turn. */
  function ToggleAll(ids: seq<SelectionId>, xs: seq<SelectionId>): seq<SelectionId>
    decreases |xs|
  {
    if xs == [] then ids else ToggleAll(Toggle(ids, xs[0]), xs[1..])
  }

  /** Toggling identities that are all new, and distinct from one another,
      appends them in order. */
  lemma {:induction false} ToggleAllFresh(ids: seq<SelectionId>, xs: seq<SelectionId>)
    requires Distinct(ids + xs)
    ensures ToggleAll(ids, xs) == ids + xs
    decreases |xs|
  {
    if xs != [] {
      assert xs[0] == (ids + xs)[|ids|];
      assert xs[0] !in ids by {
        forall i | 0 <= i < |ids| ensures ids[i] != xs[0] {
          assert ids[i] == (ids + xs)[i];
        }
      }
      assert Toggle(ids, xs[0]) == ids + [xs[0]];
      assert ids + [xs[0]] + xs[1..] == ids + xs;
      ToggleAllFresh(ids + [xs[0]], xs[1..]);
    }
  }

  class SelectionHandler {
    /** The selected identities, in the order they were selected. */
    var selectedIds: seq<SelectionId>

    constructor()
      ensures selectedIds == []
    {
      selectedIds := [];
    }

    /** `handleSelection(dataPoint, true)`: toggles the point's identity. */
    method HandleSelection(dataPoint: DataPoint)
      modifies this
      ensures selectedIds == Toggle(old(selectedIds), dataPoint.identity)
    {
      selectedIds := Toggle(selectedIds, dataPoint.identity);
    }

    method HandleClearSelection()
      modifies this
      ensures selectedIds == []
    {
      selectedIds := [];
    }
  }
}
