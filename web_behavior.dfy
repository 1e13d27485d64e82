/** The older interaction behaviour of the slicer: every click and every
    clear is applied to the host and the selected identities are persisted
    as keys; on binding, a persisted selection is restored. */
module WebBehavior {
  import opened Values
  import opened Interactivity
  import Behavior

  /** What the behaviour asks of the host and of the settings object, in
      the order it asks. */
  datatype HostCall =
    | ClearRange
    | ApplySelection(selected: seq<SelectionId>)
    | PersistKeys(keys: seq<string>)

  /** `selectedIds.map(id => id.getKey())`. */
  function Keys(ids: seq<SelectionId>): (keys: seq<string>)
    ensures |keys| == |ids|
    ensures forall i | 0 <= i < |ids| :: keys[i] == ids[i].key
  {
    if ids == [] then [] else Keys(ids[..|ids| - 1]) + [ids[|ids| - 1].key]
  }

  /** The identities of the points, in order. */
  function Identities(points: seq<DataPoint>): (ids: seq<SelectionId>)
    ensures |ids| == |points|
    ensures forall i | 0 <= i < |points| :: ids[i] == points[i].identity
  {
    if points == [] then [] else Identities(points[..|points| - 1]) + [points[|points| - 1].identity]
  }

  /** The points whose identity key is among `saved`, in their order. */
  function SavedPoints(points: seq<DataPoint>, saved: seq<string>): (r: seq<DataPoint>)
    ensures forall p :: p in r <==> p in points && p.identity.key in saved
  {
    if points == [] then []
    else
      var last := points[|points| - 1];
      var before := points[..|points| - 1];
      assert points == before + [last];
      SavedPoints(before, saved) + (if last.identity.key in saved then [last] else [])
  }

  /** Toggling one more identity after a run of toggles. */
  lemma {:induction false} ToggleAllSnoc(ids: seq<SelectionId>, xs: seq<SelectionId>, x: SelectionId)
    ensures ToggleAll(ids, xs + [x]) == Toggle(ToggleAll(ids, xs), x)
    decreases |xs|
  {
    if xs == [] {
      assert [x][1..] == [];
    } else {
      assert (xs + [x])[1..] == xs[1..] + [x];
      ToggleAllSnoc(Toggle(ids, xs[0]), xs[1..], x);
    }
  }

  /** The identities of one more point. */
  lemma IdentitiesSnoc(points: seq<DataPoint>, point: DataPoint)
    ensures Identities(points + [point]) == Identities(points) + [point.identity]
  {
    assert (points + [point])[..|points|] == points;
  }

  /** A sequence is distinct with one more element exactly when it was
      distinct and did not hold that element. */
  lemma DistinctSnoc<T>(s: seq<T>, x: T)
    ensures Distinct(s + [x]) <==> Distinct(s) && x !in s
  {
    if Distinct(s + [x]) {
      forall i, j | 0 <= i < j < |s| ensures s[i] != s[j] {
        assert s[i] == (s + [x])[i] && s[j] == (s + [x])[j];
      }
      forall i | 0 <= i < |s| ensures s[i] != x {
        assert s[i] == (s + [x])[i] && x == (s + [x])[|s|];
      }
    }
  }

  /** An identity is among the kept points' identities exactly when it is
      the identity of one of the points and its key was saved. */
  lemma SavedIdentity(points: seq<DataPoint>, saved: seq<string>, x: SelectionId)
    ensures x in Identities(SavedPoints(points, saved)) <==> x in Identities(points) && x.key in saved
  {
    var kept := SavedPoints(points, saved);
    if x in Identities(kept) {
      var k :| 0 <= k < |kept| && Identities(kept)[k] == x;
      assert kept[k] in points;
      var j :| 0 <= j < |points| && points[j] == kept[k];
      assert Identities(points)[j] == x;
    }
    if x in Identities(points) && x.key in saved {
      var j :| 0 <= j < |points| && Identities(points)[j] == x;
      assert points[j] in kept;
      var k :| 0 <= k < |kept| && kept[k] == points[j];
      assert Identities(kept)[k] == x;
    }
  }

  /** Keeping some of the points keeps their identities distinct. */
  lemma {:induction false} SavedPointsDistinct(points: seq<DataPoint>, saved: seq<string>)
    requires Distinct(Identities(points))
    ensures Distinct(Identities(SavedPoints(points, saved)))
  {
    if points != [] {
      var last := points[|points| - 1];
      var before := points[..|points| - 1];
      assert points == before + [last];
      IdentitiesSnoc(before, last);
      DistinctSnoc(Identities(before), last.identity);
      SavedPointsDistinct(before, saved);
      var kept := SavedPoints(before, saved);
      assert SavedPoints(points, saved) == kept + (if last.identity.key in saved then [last] else []);
      if last.identity.key in saved {
        SavedIdentity(before, saved, last.identity);
        IdentitiesSnoc(kept, last);
        DistinctSnoc(Identities(kept), last.identity);
      }
    }
  }

  /** When the points' identities are distinct, restoring toggles each saved
      point once and so selects exactly the identities of the points whose
      key was saved. */
  lemma RestoreSelectsSaved(points: seq<DataPoint>, saved: seq<string>)
    requires Distinct(Identities(points))
    ensures ToggleAll([], Identities(SavedPoints(points, saved))) == Identities(SavedPoints(points, saved))
    ensures forall x :: x in ToggleAll([], Identities(SavedPoints(points, saved))) <==>
      x in Identities(points) && x.key in saved
  {
    var ids := Identities(SavedPoints(points, saved));
    SavedPointsDistinct(points, saved);
    assert [] + ids == ids;
    ToggleAllFresh([], ids);
    forall x ensures x in ids <==> x in Identities(points) && x.key in saved {
      SavedIdentity(points, saved, x);
    }
  }

  /** An identity is selected exactly when its key is among the selection's
      keys: an identity is nothing but its key. */
  lemma KeyOfSelected(selected: seq<SelectionId>, x: SelectionId)
    ensures x.key in Keys(selected) <==> x in selected
  {
    if x in selected {
      var k :| 0 <= k < |selected| && selected[k] == x;
      assert Keys(selected)[k] == x.key;
    }
    if x.key in Keys(selected) {
      var k :| 0 <= k < |Keys(selected)| && Keys(selected)[k] == x.key;
      assert selected[k] == x;
    }
  }

  /** Persisting a selection and restoring it over points that carry each
      selected identity once gives back the same selected identities. */
  lemma PersistRestoreRoundTrip(points: seq<DataPoint>, selected: seq<SelectionId>)
    requires Distinct(Identities(points))
    requires forall x | x in selected :: x in Identities(points)
    ensures forall x :: x in ToggleAll([], Identities(SavedPoints(points, Keys(selected)))) <==> x in selected
  {
    var restored := ToggleAll([], Identities(SavedPoints(points, Keys(selected))));
    RestoreSelectsSaved(points, Keys(selected));
    forall x: SelectionId ensures x in restored <==> x in selected {
      KeyOfSelected(selected, x);
    }
  }

  class SampleSlicerWebBehavior {
    var dataPoints: seq<DataPoint>
    var slicerSettings: Option<Settings>
    var isSelectionLoaded: bool
    var selectionHandler: SelectionHandler?
    /** The selection keys held in the visual's persisted properties. */
    var persistedKeys: seq<string>
    /** The calls made to the host and to the settings object, oldest first. */
    var calls: seq<HostCall>

    constructor(persistedKeys: seq<string>)
      ensures this.persistedKeys == persistedKeys
      ensures dataPoints == [] && slicerSettings == None && selectionHandler == null
      ensures calls == []
    {
      dataPoints := [];
      slicerSettings := None;
      isSelectionLoaded := false;
      selectionHandler := null;
      this.persistedKeys := persistedKeys;
      calls := [];
    }

    /** Stores the options and the handler; unless a selection was already
        loaded, restores the persisted one. */
    method BindEvents(dataPoints: seq<DataPoint>, slicerSettings: Settings, isSelectionLoaded: bool,
                      selectionHandler: SelectionHandler)
      modifies this, selectionHandler
      ensures this.dataPoints == dataPoints && this.slicerSettings == Some(slicerSettings)
      ensures this.isSelectionLoaded == isSelectionLoaded && this.selectionHandler == selectionHandler
      ensures persistedKeys == old(persistedKeys)
      ensures isSelectionLoaded || |persistedKeys| == 0 ==>
        selectionHandler.selectedIds == old(selectionHandler.selectedIds) && calls == old(calls)
      ensures !isSelectionLoaded && |persistedKeys| > 0 ==>
        && selectionHandler.selectedIds == ToggleAll([], Identities(SavedPoints(dataPoints, persistedKeys)))
        && calls == old(calls) + [ApplySelection(selectionHandler.selectedIds)]
    {
      this.dataPoints := dataPoints;
      this.slicerSettings := Some(slicerSettings);
      this.isSelectionLoaded := isSelectionLoaded;
      this.selectionHandler := selectionHandler;
      if !isSelectionLoaded {
        RestoreSelectionStateFromPersistedProperties();
      }
    }

    /** A click on an item: the range selection is cleared, the item is
        toggled, the selection is applied and then persisted. */
    method Click(dataPoint: DataPoint)
      requires selectionHandler != null
      modifies this, selectionHandler
      ensures selectionHandler == old(selectionHandler) && dataPoints == old(dataPoints)
      ensures selectionHandler.selectedIds == Toggle(old(selectionHandler.selectedIds), dataPoint.identity)
      ensures slicerSettings == old(slicerSettings) && isSelectionLoaded == old(isSelectionLoaded)
      ensures calls == old(calls) + [
        ClearRange,
        ApplySelection(selectionHandler.selectedIds),
        PersistKeys(Keys(selectionHandler.selectedIds))]
      ensures persistedKeys == Keys(selectionHandler.selectedIds)
    {
      calls := calls + [ClearRange];
      selectionHandler.HandleSelection(dataPoint);
      calls := calls + [ApplySelection(selectionHandler.selectedIds)];
      PersistSelectionState();
    }

    /** Clears the selection, applies it and persists it: afterwards no
        keys are persisted. */
    method ClearAllSelections()
      requires selectionHandler != null
      modifies this, selectionHandler
      ensures selectionHandler == old(selectionHandler) && dataPoints == old(dataPoints)
      ensures selectionHandler.selectedIds == []
      ensures slicerSettings == old(slicerSettings) && isSelectionLoaded == old(isSelectionLoaded)
      ensures calls == old(calls) + [ApplySelection([]), PersistKeys([])]
      ensures persistedKeys == []
    {
      selectionHandler.HandleClearSelection();
      calls := calls + [ApplySelection(selectionHandler.selectedIds)];
      PersistSelectionState();
    }

    /** Without persisted keys nothing happens; otherwise the selection is
        cleared, each point whose key was persisted is toggled in order,
        and the selection is applied. */
    method RestoreSelectionStateFromPersistedProperties()
      requires selectionHandler != null
      modifies this, selectionHandler
      ensures selectionHandler == old(selectionHandler) && dataPoints == old(dataPoints)
      ensures persistedKeys == old(persistedKeys) && slicerSettings == old(slicerSettings)
      ensures isSelectionLoaded == old(isSelectionLoaded)
      ensures |persistedKeys| == 0 ==>
        selectionHandler.selectedIds == old(selectionHandler.selectedIds) && calls == old(calls)
      ensures |persistedKeys| > 0 ==>
        && selectionHandler.selectedIds == ToggleAll([], Identities(SavedPoints(dataPoints, persistedKeys)))
        && calls == old(calls) + [ApplySelection(selectionHandler.selectedIds)]
    {
      var savedSelectionIds := persistedKeys;
      if |savedSelectionIds| > 0 {
        var handler := selectionHandler;
        handler.HandleClearSelection();
        var matching := SavedPoints(dataPoints, savedSelectionIds);
        for j := 0 to |matching|
          invariant handler.selectedIds == ToggleAll([], Identities(matching[..j]))
          invariant unchanged(this)
        {
          assert matching[..j + 1][..j] == matching[..j];
          ToggleAllSnoc([], Identities(matching[..j]), matching[j].identity);
          handler.HandleSelection(matching[j]);
        }
        assert matching[..|matching|] == matching;
        calls := calls + [ApplySelection(handler.selectedIds)];
      }
    }

    /** Persists the keys of the selected identities, in selection order. */
    method PersistSelectionState()
      requires selectionHandler != null
      modifies this
      ensures selectionHandler != null && persistedKeys == Keys(selectionHandler.selectedIds)
      ensures calls == old(calls) + [PersistKeys(persistedKeys)]
      ensures selectionHandler == old(selectionHandler) && dataPoints == old(dataPoints)
      ensures slicerSettings == old(slicerSettings) && isSelectionLoaded == old(isSelectionLoaded)
    {
      var selectionIdKeys := Keys(selectionHandler.selectedIds);
      calls := calls + [PersistKeys(selectionIdKeys)];
      persistedKeys := selectionIdKeys;
    }

    /** The item backgrounds under the bound settings. */
    method StyleSlicerInputs(points: seq<DataPoint>) returns (colors: seq<string>)
      requires slicerSettings.Some?
      ensures |colors| == |points|
      ensures forall i | 0 <= i < |points| :: Behavior.StyledAs(slicerSettings.value, points[i], colors[i])
    {
      colors := Behavior.StyleItems(slicerSettings.value, points);
    }
  }
}
