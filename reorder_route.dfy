/**
 * The reorder endpoint of src/app/api/admin/photos/reorder/route.ts.
 * The `photos` table is reduced to its `display_order` column, keyed by id.
 * Which per-row updates fail is a parameter: the set of list positions
 * whose update returns an error.
 */
module ReorderRoute {
  import opened Wrappers

  /** The body after `request.json()`; a body that fails to parse or is null throws. */
  datatype ReorderBody =
    | Unparseable
    | Parsed(photoIds: Option<seq<string>>) // None: `photoIds` is not an array

  datatype Response =
    | Unauthorized          // 401
    | BadRequest(error: string) // 400
    | Success               // 200 {success: true}
    | Failure(error: string) // 500

  const NotAnArrayMessage: string := "photoIds must be an array"
  const FailureMessage: string := "Failed to reorder photos"

  /**
   * The column after the first `n` updates: position k sets the row with
   * id `ids[k]` to k, unless that update fails or no row has that id.
   */
  function Applied(m: map<string, int>, ids: seq<string>, failed: set<nat>, n: nat): (r: map<string, int>)
    requires n <= |ids|
    ensures r.Keys == m.Keys
  {
    if n == 0 then m
    else
      var prev := Applied(m, ids, failed, n - 1);
      if n - 1 !in failed && ids[n - 1] in prev then prev[ids[n - 1] := n - 1] else prev
  }

  /** The last position before `n` holding `id` whose update does not fail. */
  function LastGoodIndex(ids: seq<string>, failed: set<nat>, id: string, n: nat): (k: Option<nat>)
    requires n <= |ids|
    ensures k.Some? ==> k.value < n && ids[k.value] == id && k.value !in failed
    ensures k.Some? ==> forall j :: k.value < j < n && ids[j] == id ==> j in failed
    ensures k.None? ==> forall j :: 0 <= j < n && ids[j] == id ==> j in failed
  {
    if n == 0 then None
    else if ids[n - 1] == id && n - 1 !in failed then Some(n - 1)
    else LastGoodIndex(ids, failed, id, n - 1)
  }

  /** Each row ends with the index of its last successful update, or keeps its old value. */
  lemma {:induction false} AppliedValue(m: map<string, int>, ids: seq<string>, failed: set<nat>, n: nat, id: string)
    requires n <= |ids| && id in m
    ensures var k := LastGoodIndex(ids, failed, id, n);
            Applied(m, ids, failed, n)[id] == if k.Some? then k.value else m[id]
  {
    if n > 0 {
      AppliedValue(m, ids, failed, n - 1, id);
    }
  }

  /** An id listed exactly once, at position i, whose update succeeds, ends at i. */
  lemma ListedOnceEndsAtItsPosition(m: map<string, int>, ids: seq<string>, failed: set<nat>, i: nat)
    requires i < |ids| && ids[i] in m && i !in failed
    requires forall j :: 0 <= j < |ids| && j != i ==> ids[j] != ids[i]
    ensures Applied(m, ids, failed, |ids|)[ids[i]] == i
  {
    AppliedValue(m, ids, failed, |ids|, ids[i]);
  }

  /** A row whose id is not listed keeps its display order. */
  lemma UnlistedRowUnchanged(m: map<string, int>, ids: seq<string>, failed: set<nat>, id: string)
    requires id in m && id !in ids
    ensures Applied(m, ids, failed, |ids|)[id] == m[id]
  {
    AppliedValue(m, ids, failed, |ids|, id);
  }

  /** An id listed several times ends with its last index. */
  lemma DuplicateTakesLastIndex(m: map<string, int>, ids: seq<string>, id: string, i: nat, j: nat)
    requires id in m && i < j < |ids| && ids[i] == id && ids[j] == id
    requires forall k :: j < k < |ids| ==> ids[k] != id
    ensures Applied(m, ids, {}, |ids|)[id] == j
  {
    AppliedValue(m, ids, {}, |ids|, id);
  }

  /** A failed update leaves that row as the earlier updates (or none) left it. */
  lemma FailedUpdateIsSkipped(m: map<string, int>, ids: seq<string>, failed: set<nat>, i: nat)
    requires i < |ids| && ids[i] in m && i in failed
    requires forall j :: 0 <= j < |ids| && j != i ==> ids[j] != ids[i]
    ensures Applied(m, ids, failed, |ids|)[ids[i]] == m[ids[i]]
  {
    AppliedValue(m, ids, failed, |ids|, ids[i]);
  }

  /**
   * Submitting every id once with no failure numbers the rows 0..N-1 in
   * list order.
   */
  lemma FullListRenumbers(m: map<string, int>, ids: seq<string>)
    requires forall i, j :: 0 <= i < j < |ids| ==> ids[i] != ids[j]
    requires forall i :: 0 <= i < |ids| ==> ids[i] in m
    ensures forall i :: 0 <= i < |ids| ==> Applied(m, ids, {}, |ids|)[ids[i]] == i
  {
    forall i | 0 <= i < |ids| ensures Applied(m, ids, {}, |ids|)[ids[i]] == i {
      ListedOnceEndsAtItsPosition(m, ids, {}, i);
    }
  }

  class PhotosTable {
    /** `display_order` of each row, by id. */
    var displayOrder: map<string, int>

    constructor (rows: map<string, int>)
      ensures displayOrder == rows
    {
      displayOrder := rows;
    }

    /**
     * `POST /api/admin/photos/reorder`. Per-row failures are only logged:
     * the loop goes on and the answer is still success.
     */
    method Reorder(authenticated: bool, body: ReorderBody, failed: set<nat>) returns (r: Response)
      modifies this
      ensures !authenticated ==> r == Unauthorized && displayOrder == old(displayOrder)
      ensures authenticated && body.Unparseable? ==> r == Failure(FailureMessage) && displayOrder == old(displayOrder)
      ensures authenticated && body.Parsed? && body.photoIds.None? ==>
                r == BadRequest(NotAnArrayMessage) && displayOrder == old(displayOrder)
      ensures authenticated && body.Parsed? && body.photoIds.Some? ==>
                r == Success &&
                displayOrder == Applied(old(displayOrder), body.photoIds.value, failed, |body.photoIds.value|)
    {
      if !authenticated {
        return Unauthorized;
      }
      if body.Unparseable? {
        return Failure(FailureMessage);
      }
      if body.photoIds.None? {
        return BadRequest(NotAnArrayMessage);
      }
      var ids := body.photoIds.value;
      ghost var initial := displayOrder;
      var k := 0;
      while k < |ids|
        invariant 0 <= k <= |ids|
        invariant displayOrder == Applied(initial, ids, failed, k)
      {
        // `.update(...).eq('id', ids[k])` touches the matching row only.
        if k !in failed && ids[k] in displayOrder {
          displayOrder := displayOrder[ids[k] := k];
        }
        k := k + 1;
      }
      return Success;
    }
  }

  /** An empty list succeeds and changes nothing. */
  lemma EmptyListChangesNothing(m: map<string, int>, failed: set<nat>)
    ensures Applied(m, [], failed, 0) == m
  {
  }

  /** Moving C to the front of A, B, C. */
  lemma ReorderExample()
    ensures Applied(map["A" := 0, "B" := 1, "C" := 2], ["C", "A", "B"], {}, 3) ==
            map["A" := 1, "B" := 2, "C" := 0]
  {
    var m := map["A" := 0, "B" := 1, "C" := 2];
    assert Applied(m, ["C", "A", "B"], {}, 1) == map["A" := 0, "B" := 1, "C" := 0];
    assert Applied(m, ["C", "A", "B"], {}, 2) == map["A" := 1, "B" := 1, "C" := 0];
  }
}
