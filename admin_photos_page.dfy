/**
 * The photo management page of src/app/admin/photos/page.tsx: local
 * re-indexing after a drag, selection, the two mutually exclusive modes,
 * saving the order and bulk deletion. Server answers are parameters.
 */
module AdminPhotosPage {
  import opened Wrappers
  import opened AdminPhoto
  import ReorderRoute

  /** `reordered.map((photo, index) => ({...photo, display_order: index}))`. */
  function Reindexed(photos: seq<Photo>): (r: seq<Photo>)
    ensures |r| == |photos|
    ensures forall k :: 0 <= k < |r| ==> r[k].displayOrder == k && r[k] == photos[k].(displayOrder := k)
    ensures Ids(r) == Ids(photos)
  {
    var r := seq(|photos|, k requires 0 <= k < |photos| => photos[k].(displayOrder := k));
    assert Ids(r) == Ids(photos);
    r
  }

  lemma ReindexIsIdempotent(photos: seq<Photo>)
    ensures Reindexed(Reindexed(photos)) == Reindexed(photos)
  {
  }

  /** Copying the set and flipping one id. */
  function ToggleSelection(selected: set<string>, id: string): (r: set<string>)
    ensures id in r <==> id !in selected
    ensures forall x :: x != id ==> (x in r <==> x in selected)
  {
    if id in selected then selected - {id} else selected + {id}
  }

  lemma ToggleTwiceRestores(selected: set<string>, id: string)
    ensures ToggleSelection(ToggleSelection(selected, id), id) == selected
  {
  }

  /**
   * The bulk-delete loop: one DELETE per selected id; `okIds` are the
   * ids whose response is ok (a thrown fetch counts as not ok).
   */
  method CountSuccessfulDeletes(selected: set<string>, okIds: set<string>) returns (requested: set<string>, successCount: nat)
    ensures requested == selected
    ensures successCount == |selected * okIds|
  {
    var rest := selected;
    requested := {};
    successCount := 0;
    while rest != {}
      invariant rest + requested == selected && rest * requested == {}
      invariant successCount == |requested * okIds|
      decreases |rest|
    {
      var id :| id in rest;
      CountOneMore(requested, id, okIds);
      if id in okIds {
        successCount := successCount + 1;
      }
      requested := requested + {id};
      rest := rest - {id};
    }
  }

  /** One more requested delete adds one to the count exactly when it succeeds. */
  lemma CountOneMore(requested: set<string>, id: string, okIds: set<string>)
    requires id !in requested
    ensures |(requested + {id}) * okIds| == |requested * okIds| + (if id in okIds then 1 else 0)
  {
    if id in okIds {
      assert (requested + {id}) * okIds == requested * okIds + {id};
    } else {
      assert (requested + {id}) * okIds == requested * okIds;
    }
  }

  /** The reported count never exceeds the number of selected photos. */
  lemma SuccessCountBounded(selected: set<string>, okIds: set<string>)
    ensures |selected * okIds| <= |selected|
  {
    var both := selected * okIds;
    assert selected == both + (selected - both);
    assert |selected| == |both| + |selected - both|;
  }

  class PhotosManagementPage {
    var photos: seq<Photo>
    var selectedPhotos: set<string>
    var bulkMode: bool
    var reorderMode: bool
    var hasReordered: bool

    /** The page never shows both modes at once. */
    ghost predicate ModesExclusive()
      reads this
    {
      !(reorderMode && bulkMode)
    }

    constructor (photos: seq<Photo>)
      ensures this.photos == photos && selectedPhotos == {}
      ensures !bulkMode && !reorderMode && !hasReordered
      ensures ModesExclusive()
    {
      this.photos := photos;
      selectedPhotos := {};
      bulkMode := false;
      reorderMode := false;
      hasReordered := false;
    }

    /** The grid's `onPhotosReorder`. */
    method HandlePhotosReorder(reordered: seq<Photo>)
      modifies this
      ensures photos == Reindexed(reordered) && hasReordered
      ensures selectedPhotos == old(selectedPhotos) && bulkMode == old(bulkMode) && reorderMode == old(reorderMode)
    {
      photos := Reindexed(reordered);
      hasReordered := true;
    }

    /** `saveReorder`: returns the ids sent; the flag clears only on an ok response. */
    method SaveReorder(responseOk: bool) returns (photoIds: seq<string>)
      modifies this
      ensures photoIds == Ids(photos)
      ensures hasReordered == (old(hasReordered) && !responseOk)
      ensures photos == old(photos) && selectedPhotos == old(selectedPhotos)
      ensures bulkMode == old(bulkMode) && reorderMode == old(reorderMode)
    {
      photoIds := Ids(photos);
      if responseOk {
        hasReordered := false;
      }
    }

    method TogglePhotoSelection(id: string)
      modifies this
      ensures selectedPhotos == ToggleSelection(old(selectedPhotos), id)
      ensures photos == old(photos) && bulkMode == old(bulkMode) && reorderMode == old(reorderMode)
      ensures hasReordered == old(hasReordered)
    {
      selectedPhotos := ToggleSelection(selectedPhotos, id);
    }

    /** The "Reorder Photos" / "Done Reordering" button. */
    method ToggleReorderMode()
      modifies this
      ensures reorderMode == !old(reorderMode) && !bulkMode && selectedPhotos == {}
      ensures photos == old(photos) && hasReordered == old(hasReordered)
      ensures ModesExclusive()
    {
      reorderMode := !reorderMode;
      bulkMode := false;
      selectedPhotos := {};
    }

    /** The "Bulk Select" / "Cancel Bulk" button. */
    method ToggleBulkMode()
      modifies this
      ensures bulkMode == !old(bulkMode) && !reorderMode && selectedPhotos == {}
      ensures photos == old(photos) && hasReordered == old(hasReordered)
      ensures ModesExclusive()
    {
      bulkMode := !bulkMode;
      reorderMode := false;
      selectedPhotos := {};
    }

    /**
     * `handleBulkDelete`, given the answer to the confirm dialog and the
     * ids whose DELETE succeeds. Returns the ids a DELETE was sent for and
     * the count shown in the toast (None when nothing happens). The photo
     * list is re-fetched afterwards, which is not modelled.
     */
    method HandleBulkDelete(confirmed: bool, okIds: set<string>) returns (requested: set<string>, reported: Option<nat>)
      modifies this
      ensures old(selectedPhotos) == {} || !confirmed ==>
                requested == {} && reported.None? &&
                selectedPhotos == old(selectedPhotos) && bulkMode == old(bulkMode)
      ensures old(selectedPhotos) != {} && confirmed ==>
                requested == old(selectedPhotos) &&
                reported == Some(|old(selectedPhotos) * okIds|) && reported.value <= |old(selectedPhotos)| &&
                selectedPhotos == {} && !bulkMode
      ensures photos == old(photos) && reorderMode == old(reorderMode) && hasReordered == old(hasReordered)
      ensures old(ModesExclusive()) ==> ModesExclusive()
    {
      if selectedPhotos == {} || !confirmed {
        return {}, None;
      }
      var count;
      requested, count := CountSuccessfulDeletes(selectedPhotos, okIds);
      SuccessCountBounded(selectedPhotos, okIds);
      reported := Some(count);
      selectedPhotos := {};
      bulkMode := false;
    }
  }

  /**
   * Saving the order of a page whose photos have distinct ids, after a
   * drag, numbers the table rows exactly as the page shows them, when no
   * row update fails.
   */
  lemma SavedOrderMatchesPage(table: map<string, int>, reordered: seq<Photo>)
    requires forall i, j :: 0 <= i < j < |reordered| ==> reordered[i].id != reordered[j].id
    requires forall i :: 0 <= i < |reordered| ==> reordered[i].id in table
    ensures var page := Reindexed(reordered);
            var ids := Ids(page);
            forall i :: 0 <= i < |page| ==>
              ReorderRoute.Applied(table, ids, {}, |ids|)[page[i].id] == page[i].displayOrder
  {
    var page := Reindexed(reordered);
    var ids := Ids(page);
    ReorderRoute.FullListRenumbers(table, ids);
  }
}
