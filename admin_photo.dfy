/** The photo row as the admin screens see it (the `Photo` interface of the admin page and grid). */
module AdminPhoto {
  import opened Wrappers

  datatype Photo = Photo(
    id: string,
    title: string,
    description: Option<string>,
    categoryId: Option<string>,
    publicUrl: string,
    thumbnailUrl: string,
    isFeatured: bool,
    displayOrder: int)

  /** `photos.map(p => p.id)`. */
  function Ids(photos: seq<Photo>): (ids: seq<string>)
    ensures |ids| == |photos| && forall k :: 0 <= k < |photos| ==> ids[k] == photos[k].id
  {
    seq(|photos|, k requires 0 <= k < |photos| => photos[k].id)
  }
}
