/** The category filter of the portfolio page, src/app/portfolio/page.tsx. */
module Portfolio {
  const AllLabel: string := "All"

  datatype Image = Image(src: string, alt: string, category: string)

  /** The page's fixed image list, lines 9-50. */
  const AllImages: seq<Image> := [
    Image("/images/gallery1.jpg", "Urban landscape photograph", "Urban"),
    Image("/images/gallery2.jpg", "Nature photograph with trees", "Nature"),
    Image("/images/gallery3.jpg", "Portrait photograph", "Portrait"),
    Image("/images/gallery4.jpg", "Street photography scene", "Street"),
    Image("/images/gallery1.jpg", "Architectural detail photograph", "Architecture"),
    Image("/images/gallery2.jpg", "Landscape photograph with mountains", "Landscape"),
    Image("/images/gallery3.jpg", "Abstract photograph", "Abstract"),
    Image("/images/gallery4.jpg", "Travel photography scene", "Travel")
  ]

  predicate NoDuplicates(s: seq<string>) {
    forall i, j :: 0 <= i < j < |s| ==> s[i] != s[j]
  }

  /** The index of the first occurrence of `x` in `s`. */
  function FirstIndex(s: seq<string>, x: string): (k: nat)
    requires x in s
    ensures k < |s| && s[k] == x && x !in s[..k]
  {
    if s[0] == x then 0 else 1 + FirstIndex(s[1..], x)
  }

  lemma {:induction false} FirstIndexInPrefix(s: seq<string>, n: nat, x: string)
    requires n <= |s| && x in s[..n]
    ensures FirstIndex(s, x) == FirstIndex(s[..n], x)
  {
    if s[0] != x {
      assert s[1..][..n - 1] == s[..n][1..];
      FirstIndexInPrefix(s[1..], n - 1, x);
    }
  }

  /**
   * `[...new Set(s)]`: the distinct elements in order of first
   * occurrence (a Set iterates in insertion order).
   */
  function Distinct(s: seq<string>): (r: seq<string>)
    ensures forall x :: x in r <==> x in s
    ensures NoDuplicates(r)
  {
    if s == [] then []
    else
      var n := |s| - 1;
      var d := Distinct(s[..n]);
      assert s == s[..n] + [s[n]];
      if s[n] in d then d else d + [s[n]]
  }

  /** The distinct elements come in the order of their first occurrences. */
  lemma {:induction false} DistinctKeepsFirstOccurrenceOrder(s: seq<string>)
    ensures forall i, j :: 0 <= i < j < |Distinct(s)| ==> FirstIndex(s, Distinct(s)[i]) < FirstIndex(s, Distinct(s)[j])
  {
    if s != [] {
      var n := |s| - 1;
      var init := s[..n];
      var d := Distinct(init);
      DistinctKeepsFirstOccurrenceOrder(init);
      var r := Distinct(s);
      assert r == d || (s[n] !in d && r == d + [s[n]]) by {
        assert s == init + [s[n]];
      }
      forall i, j | 0 <= i < j < |r| ensures FirstIndex(s, r[i]) < FirstIndex(s, r[j]) {
        var x := d[i];
        assert x in init;
        if j < |d| {
          var y := d[j];
          assert y in init;
          PrefixKeepsOrder(s, n, x, y);
        } else {
          BeforeLast(s, x);
        }
      }
    }
  }

  lemma PrefixKeepsOrder(s: seq<string>, n: nat, x: string, y: string)
    requires n <= |s| && x in s[..n] && y in s[..n]
    requires FirstIndex(s[..n], x) < FirstIndex(s[..n], y)
    ensures FirstIndex(s, x) < FirstIndex(s, y)
  {
    FirstIndexInPrefix(s, n, x);
    FirstIndexInPrefix(s, n, y);
  }

  /** An element of the prefix first occurs before a last element that is new. */
  lemma BeforeLast(s: seq<string>, x: string)
    requires s != [] && x in s[..|s| - 1] && s[|s| - 1] !in s[..|s| - 1]
    ensures FirstIndex(s, x) < FirstIndex(s, s[|s| - 1])
  {
    var n := |s| - 1;
    FirstIndexInPrefix(s, n, x);
    assert FirstIndex(s, s[n]) == n;
  }

  /** The filter buttons: 'All', then each category once, in first-occurrence order. */
  function Categories(images: seq<Image>): (cs: seq<string>)
    ensures cs != [] && cs[0] == AllLabel
  {
    [AllLabel] + Distinct(CategoryColumn(images))
  }

  function CategoryColumn(images: seq<Image>): (c: seq<string>)
    ensures |c| == |images| && forall k :: 0 <= k < |images| ==> c[k] == images[k].category
  {
    seq(|images|, k requires 0 <= k < |images| => images[k].category)
  }

  /** The images of one category, in their original order. */
  function OfCategory(images: seq<Image>, category: string): (r: seq<Image>)
    ensures |r| <= |images|
    ensures forall k :: 0 <= k < |r| ==> r[k].category == category
  {
    if images == [] then []
    else
      var rest := OfCategory(images[1..], category);
      if images[0].category == category then [images[0]] + rest else rest
  }

  /** An image of the category is kept, and only images of the list are. */
  lemma {:induction false} OfCategoryMembers(images: seq<Image>, category: string, x: Image)
    ensures x in OfCategory(images, category) <==> x in images && x.category == category
  {
    if images != [] {
      OfCategoryMembers(images[1..], category, x);
      assert x in images <==> x == images[0] || x in images[1..];
    }
  }

  /** Filtering distributes over concatenation, so the original order is kept. */
  lemma {:induction false} OfCategoryKeepsOrder(a: seq<Image>, b: seq<Image>, category: string)
    ensures OfCategory(a + b, category) == OfCategory(a, category) + OfCategory(b, category)
  {
    if a != [] {
      assert (a + b)[1..] == a[1..] + b;
      OfCategoryKeepsOrder(a[1..], b, category);
    } else {
      assert a + b == b;
    }
  }

  /** `filteredImages`: 'All' shows everything, any other label exactly its category. */
  function FilteredImages(images: seq<Image>, active: string): (r: seq<Image>)
    ensures active == AllLabel ==> r == images
    ensures active != AllLabel ==> r == OfCategory(images, active)
  {
    if active == AllLabel then images else OfCategory(images, active)
  }

  /** The state of the page: the active category, 'All' at first. */
  const InitialCategory: string := AllLabel

  /** The empty state's button resets the filter to 'All', which shows every image. */
  function ResetFromEmptyState(images: seq<Image>, active: string): (next: string)
    requires FilteredImages(images, active) == []
    ensures next == AllLabel && FilteredImages(images, next) == images
  {
    AllLabel
  }

  /** Every button of the page shows at least one image, so the empty state never appears. */
  lemma EveryListedCategoryIsNonEmpty(category: string)
    requires category in Categories(AllImages)
    ensures FilteredImages(AllImages, category) != []
  {
    if category != AllLabel {
      assert category in Distinct(CategoryColumn(AllImages));
      var k := FirstIndex(CategoryColumn(AllImages), category);
      OfCategoryMembers(AllImages, category, AllImages[k]);
    }
  }

  const PageCategoryNames: seq<string> :=
    ["Urban", "Nature", "Portrait", "Street", "Architecture", "Landscape", "Abstract", "Travel"]

  lemma PageColumn()
    ensures CategoryColumn(AllImages) == PageCategoryNames
  {
    var c := CategoryColumn(AllImages);
    forall k | 0 <= k < |c| ensures c[k] == PageCategoryNames[k] {
      assert c[k] == AllImages[k].category;
    }
  }

  lemma PageNamesDistinct()
    ensures NoDuplicates(PageCategoryNames)
  {
    var names := PageCategoryNames;
    forall i, j | 0 <= i < j < |names| ensures names[i] != names[j] {
      assert names[i][0] != names[j][0] || names[i][1] != names[j][1];
    }
  }

  /** The page offers 'All' and its eight categories, in page order. */
  lemma PageCategories()
    ensures Categories(AllImages) == [AllLabel] + PageCategoryNames
  {
    PageColumn();
    PageNamesDistinct();
    DistinctOfDuplicateFree(PageCategoryNames);
  }

  /** On a list without repeats the distinct step changes nothing. */
  lemma {:induction false} DistinctOfDuplicateFree(s: seq<string>)
    requires NoDuplicates(s)
    ensures Distinct(s) == s
  {
    if s != [] {
      var n := |s| - 1;
      LastIsNew(s);
      DistinctOfDuplicateFree(s[..n]);
    }
  }

  lemma LastIsNew(s: seq<string>)
    requires NoDuplicates(s) && s != []
    ensures NoDuplicates(s[..|s| - 1]) && s[|s| - 1] !in s[..|s| - 1]
    ensures s == s[..|s| - 1] + [s[|s| - 1]]
  {
  }

}
