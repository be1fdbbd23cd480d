/**
 * The drag-and-drop grid of src/components/admin/SortablePhotoGrid.tsx.
 * `arrayMove` of @dnd-kit is given its documented semantics: take the
 * element out at `from`, then insert it at `to`.
 */
module SortableGrid {
  import opened Wrappers
  import opened AdminPhoto

  /** `photos.findIndex(p => p.id === id)`. */
  function FindIndex(photos: seq<Photo>, id: string): (k: int)
    ensures -1 <= k < |photos|
    ensures k >= 0 ==> photos[k].id == id && forall j :: 0 <= j < k ==> photos[j].id != id
    ensures k == -1 <==> forall j :: 0 <= j < |photos| ==> photos[j].id != id
  {
    if photos == [] then -1
    else if photos[0].id == id then 0
    else
      var k := FindIndex(photos[1..], id);
      if k == -1 then -1 else k + 1
  }

  function RemoveAt<T>(s: seq<T>, i: nat): (r: seq<T>)
    requires i < |s|
    ensures |r| == |s| - 1
    ensures forall k :: 0 <= k < i ==> r[k] == s[k]
    ensures forall k :: i <= k < |r| ==> r[k] == s[k + 1]
  {
    s[..i] + s[i + 1..]
  }

  function InsertAt<T>(s: seq<T>, i: nat, x: T): (r: seq<T>)
    requires i <= |s|
    ensures |r| == |s| + 1 && r[i] == x
    ensures forall k :: 0 <= k < i ==> r[k] == s[k]
    ensures forall k :: i < k < |r| ==> r[k] == s[k - 1]
  {
    s[..i] + [x] + s[i..]
  }

  lemma RemoveInserted<T>(s: seq<T>, i: nat, x: T)
    requires i <= |s|
    ensures RemoveAt(InsertAt(s, i, x), i) == s
  {
    var r := RemoveAt(InsertAt(s, i, x), i);
    assert |r| == |s|;
    forall k | 0 <= k < |s| ensures r[k] == s[k] {
    }
  }

  /**
   * `arrayMove(s, from, to)`: the same elements, the moved one now at
   * `to`, and all others in their old relative order.
   */
  function ArrayMove<T>(s: seq<T>, from: nat, to: nat): (r: seq<T>)
    requires from < |s| && to < |s|
    ensures |r| == |s|
    ensures multiset(r) == multiset(s)
    ensures r[to] == s[from]
    ensures RemoveAt(r, to) == RemoveAt(s, from)
  {
    var rest := RemoveAt(s, from);
    RemoveInserted(rest, to, s[from]);
    assert s == s[..from] + [s[from]] + s[from + 1..];
    assert multiset(s) == multiset(s[..from]) + multiset{s[from]} + multiset(s[from + 1..]);
    var r := InsertAt(rest, to, s[from]);
    assert r == rest[..to] + [s[from]] + rest[to..];
    assert rest == rest[..to] + rest[to..];
    assert multiset(r) == multiset(rest[..to]) + multiset{s[from]} + multiset(rest[to..]);
    assert multiset(rest) == multiset(rest[..to]) + multiset(rest[to..]);
    assert rest == s[..from] + s[from + 1..];
    assert multiset(rest) == multiset(s[..from]) + multiset(s[from + 1..]);
    assert multiset(r) == multiset(rest) + multiset{s[from]};
    assert multiset(s) == multiset(rest) + multiset{s[from]};
    r
  }

  /** Moving photos moves their ids the same way. */
  lemma IdsCommuteWithMove(photos: seq<Photo>, from: nat, to: nat)
    requires from < |photos| && to < |photos|
    ensures Ids(ArrayMove(photos, from, to)) == ArrayMove(Ids(photos), from, to)
  {
    var l := Ids(ArrayMove(photos, from, to));
    var r := ArrayMove(Ids(photos), from, to);
    forall k | 0 <= k < |photos| ensures l[k] == r[k] {
      if k < to {
        assert l[k] == RemoveAt(ArrayMove(photos, from, to), to)[k].id;
        assert r[k] == RemoveAt(r, to)[k];
      } else if k > to {
        assert l[k] == RemoveAt(ArrayMove(photos, from, to), to)[k - 1].id;
        assert r[k] == RemoveAt(r, to)[k - 1];
      }
    }
  }

  /**
   * `handleDragEnd` without its state update: Some(list) is the list
   * passed to `onPhotosReorder`, None means the callback is not called.
   * dnd-kit reports only ids registered in the SortableContext, which are
   * the photo ids, so both ids are among the photos.
   */
  function DragEndResult(photos: seq<Photo>, active: string, over: Option<string>): (r: Option<seq<Photo>>)
    requires active in Ids(photos)
    requires over.Some? ==> over.value in Ids(photos)
    ensures r.None? <==> over.None? || over.value == active
    ensures r.Some? ==>
              var from := FindIndex(photos, active);
              var to := FindIndex(photos, over.value);
              0 <= from < |photos| && 0 <= to < |photos| &&
              r.value == ArrayMove(photos, from, to) &&
              multiset(r.value) == multiset(photos) && r.value[to].id == active
  {
    if over.Some? && active != over.value then
      var from := FindIndex(photos, active);
      var to := FindIndex(photos, over.value);
      Some(ArrayMove(photos, from, to))
    else None
  }

  class SortablePhotoGrid {
    /** The `photos` prop; the parent replaces it after `onPhotosReorder`. */
    var photos: seq<Photo>
    var activeId: Option<string>

    constructor (photos: seq<Photo>)
      ensures this.photos == photos && activeId.None?
    {
      this.photos := photos;
      activeId := None;
    }

    /** The ids handed to SortableContext, in the order of the photos. */
    function Items(): (items: seq<string>)
      reads this
      ensures |items| == |photos| && forall k :: 0 <= k < |photos| ==> items[k] == photos[k].id
    {
      Ids(photos)
    }

    method HandleDragStart(id: string)
      modifies this
      ensures activeId == Some(id) && photos == old(photos)
    {
      activeId := Some(id);
    }

    /** Returns what `onPhotosReorder` receives, if it is called; the drag is over either way. */
    method HandleDragEnd(active: string, over: Option<string>) returns (reordered: Option<seq<Photo>>)
      requires active in Items()
      requires over.Some? ==> over.value in Items()
      modifies this
      ensures reordered == DragEndResult(old(photos), active, over)
      ensures activeId.None? && photos == old(photos)
    {
      reordered := DragEndResult(photos, active, over);
      activeId := None;
    }
  }
}
