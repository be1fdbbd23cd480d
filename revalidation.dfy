/** Cache invalidation helper of src/lib/revalidate.ts. */
module Revalidation {
  import opened Wrappers

  /** The pages invalidated when no list is given: home and portfolio. */
  const DefaultPaths: seq<string> := ["/", "/portfolio"]

  /** The list `triggerRevalidation` walks: an explicit list replaces the default. */
  function PathsFor(paths: Option<seq<string>>): (r: seq<string>)
    ensures paths.Some? ==> r == paths.value
    ensures paths.None? ==> r == DefaultPaths
  {
    paths.GetOr(DefaultPaths)
  }

  /**
   * `triggerRevalidation(paths)`: one `revalidatePath` call per list
   * element, in list order. The calls are returned as the sequence of
   * paths passed to `revalidatePath`.
   */
  method TriggerRevalidation(paths: Option<seq<string>>) returns (calls: seq<string>)
    ensures calls == PathsFor(paths)
    ensures paths.None? ==> calls == ["/", "/portfolio"]
    ensures paths == Some([]) ==> calls == []
  {
    var list := PathsFor(paths);
    calls := [];
    for k := 0 to |list|
      invariant calls == list[..k]
    {
      calls := calls + [list[k]];
    }
  }
}
