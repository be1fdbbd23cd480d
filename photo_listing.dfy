/**
 * The public photo listing, `GET /api/photos` of src/app/api/photos/route.ts.
 * The tables are sequences of rows; the store's ordering and range are
 * written out: a stable sort on display_order, then the inclusive window
 * offset..offset+limit-1.
 */
module PhotoListing {
  import opened Wrappers
  import opened Text

  datatype Row = Row(id: string, categoryId: Option<string>, isFeatured: bool, displayOrder: int)
  datatype Category = Category(id: string, slug: string)

  /** The query string; None is a parameter `searchParams.get` does not find. */
  datatype Query = Query(category: Option<string>, limit: Option<string>, offset: Option<string>, featured: Option<string>)

  const DefaultLimit: string := "20"
  const DefaultOffset: string := "0"

  /** Length of the run of decimal digits at the start of `s`. */
  function DigitRun(s: string): (k: nat)
    ensures k <= |s| && (forall i :: 0 <= i < k ==> IsDigit(s[i])) && (k == |s| || !IsDigit(s[k]))
  {
    if |s| > 0 && IsDigit(s[0]) then 1 + DigitRun(s[1..]) else 0
  }

  /** The number a string of decimal digits denotes. */
  function DigitsValue(ds: string): (v: nat)
    requires forall i :: 0 <= i < |ds| ==> IsDigit(ds[i])
  {
    if ds == [] then 0 else 10 * DigitsValue(ds[..|ds| - 1]) + DigitValue(ds[|ds| - 1])
  }

  function DigitValue(c: char): (d: nat)
    requires IsDigit(c)
    ensures d < 10
  {
    c as int - '0' as int
  }

  /**
   * `parseInt(s, 10)`: leading whitespace, an optional sign, then the
   * longest run of digits; None is NaN (no digit).
   */
  function ParseInt(s: string): (r: Option<int>)
    ensures r.None? <==> DigitRun(UnsignedPart(s)) == 0
    ensures r.Some? && !Negative(s) ==> r.value >= 0
  {
    var u := UnsignedPart(s);
    var n := DigitRun(u);
    if n == 0 then None
    else
      var v: int := DigitsValue(u[..n]);
      Some(if Negative(s) then -v else v)
  }

  /** After the blanks, the sign, if any. */
  function AfterBlanks(s: string): string {
    s[LeadingSpaces(s)..]
  }

  predicate Negative(s: string) {
    var t := AfterBlanks(s);
    |t| > 0 && t[0] == '-'
  }

  function UnsignedPart(s: string): string {
    var t := AfterBlanks(s);
    if |t| > 0 && (t[0] == '-' || t[0] == '+') then t[1..] else t
  }

  lemma {:induction false} DigitsValueOfDecimal(n: nat)
    ensures DigitsValue(NatToDecimal(n)) == n
  {
    if n >= 10 {
      DigitsValueOfDecimal(n / 10);
      var d := NatToDecimal(n);
      assert d[..|d| - 1] == NatToDecimal(n / 10);
    }
  }

  lemma {:induction false} DigitRunOfDigits(s: string)
    requires forall i :: 0 <= i < |s| ==> IsDigit(s[i])
    ensures DigitRun(s) == |s|
  {
    if s != [] {
      DigitRunOfDigits(s[1..]);
    }
  }

  /** `parseInt` reads back every decimal numeral. */
  lemma ParseIntOfDecimal(n: nat)
    ensures ParseInt(NatToDecimal(n)) == Some(n)
  {
    var d := NatToDecimal(n);
    assert LeadingSpaces(d) == 0;
    assert AfterBlanks(d) == d;
    assert UnsignedPart(d) == d;
    DigitRunOfDigits(d);
    assert d[..|d|] == d;
    DigitsValueOfDecimal(n);
  }

  /** `parseInt(s || fallback, 10)`: an absent or empty parameter takes the default. */
  function ParamOr(v: Option<string>, fallback: string): (r: Option<int>)
    ensures v.None? || v.value == "" ==> r == ParseInt(fallback)
    ensures v.Some? && v.value != "" ==> r == ParseInt(v.value)
  {
    ParseInt(if v.Some? && v.value != "" then v.value else fallback)
  }

  lemma DefaultsAreTwentyAndZero()
    ensures ParamOr(None, DefaultLimit) == Some(20) && ParamOr(Some(""), DefaultLimit) == Some(20)
    ensures ParamOr(None, DefaultOffset) == Some(0)
  {
    assert NatToDecimal(20) == DefaultLimit;
    ParseIntOfDecimal(20);
    assert NatToDecimal(0) == DefaultOffset;
    ParseIntOfDecimal(0);
  }

  /** `parseInt` stops at the first non-digit. */
  lemma ParseIntStopsAtNonDigit()
    ensures ParseInt("12abc") == Some(12)
  {
    var s := "12abc";
    assert LeadingSpaces(s) == 0;
    assert UnsignedPart(s) == s;
    assert s[1..] == "2abc" && "2abc"[1..] == "abc";
    assert DigitRun("abc") == 0;
    assert DigitRun(s) == 2;
    assert s[..2] == "12" && "12"[..1] == "1";
    assert DigitsValue("1") == 1 by { assert "1"[..0] == ""; }
  }

  lemma ParseIntWithoutDigits()
    ensures ParseInt("abc") == None
  {
    assert LeadingSpaces("abc") == 0;
    assert UnsignedPart("abc") == "abc";
  }

  lemma ParseIntNegative()
    ensures ParseInt(" -3") == Some(-3)
  {
    var s := " -3";
    assert s[1..] == "-3";
    assert LeadingSpaces("-3") == 0;
    assert LeadingSpaces(s) == 1;
    assert AfterBlanks(s) == "-3";
    assert UnsignedPart(s) == "3";
    assert "3"[1..] == "";
    assert DigitRun("3") == 1;
    assert "3"[..1] == "3" && "3"[..0] == "";
  }

  /** The ids of all categories whose slug is `slug`. */
  function MatchingIds(cats: seq<Category>, slug: string): (ids: seq<string>)
    ensures |ids| <= |cats|
  {
    if cats == [] then []
    else (if cats[0].slug == slug then [cats[0].id] else []) + MatchingIds(cats[1..], slug)
  }

  /**
   * The category filter: a truthy slug whose `.single()` lookup finds
   * exactly one category filters on its id; anything else filters nothing.
   * `lookupFails` is a lookup query that itself answers an error, which is
   * only logged.
   */
  function CategoryFilter(cats: seq<Category>, slug: Option<string>, lookupFails: bool): (f: Option<string>)
    ensures slug.None? || slug.value == "" || lookupFails ==> f.None?
    ensures f.Some? ==> MatchingIds(cats, slug.value) == [f.value]
    ensures slug.Some? && slug.value != "" && !lookupFails && |MatchingIds(cats, slug.value)| == 1 ==> f.Some?
  {
    if slug.None? || slug.value == "" || lookupFails then None
    else
      var ids := MatchingIds(cats, slug.value);
      if |ids| == 1 then Some(ids[0]) else None
  }

  predicate Keep(r: Row, categoryId: Option<string>, featuredOnly: bool) {
    (categoryId.Some? ==> r.categoryId == categoryId) && (featuredOnly ==> r.isFeatured)
  }

  function Filter(rows: seq<Row>, categoryId: Option<string>, featuredOnly: bool): (r: seq<Row>)
    ensures |r| <= |rows|
    ensures forall k :: 0 <= k < |r| ==> Keep(r[k], categoryId, featuredOnly)
    ensures multiset(r) <= multiset(rows)
  {
    if rows == [] then []
    else
      var rest := Filter(rows[1..], categoryId, featuredOnly);
      assert rows == [rows[0]] + rows[1..];
      if Keep(rows[0], categoryId, featuredOnly) then [rows[0]] + rest else rest
  }

  lemma {:induction false} FilterKeepsMatches(rows: seq<Row>, categoryId: Option<string>, featuredOnly: bool, x: Row)
    ensures x in Filter(rows, categoryId, featuredOnly) <==> x in rows && Keep(x, categoryId, featuredOnly)
  {
    if rows != [] {
      FilterKeepsMatches(rows[1..], categoryId, featuredOnly, x);
      assert x in rows <==> x == rows[0] || x in rows[1..];
    }
  }

  predicate SortedByOrder(s: seq<Row>) {
    forall i, j :: 0 <= i < j < |s| ==> s[i].displayOrder <= s[j].displayOrder
  }

  /** Insert `x` before the first row with a larger display order. */
  function InsertByOrder(x: Row, s: seq<Row>): (r: seq<Row>)
  {
    if s == [] then [x]
    else if x.displayOrder < s[0].displayOrder then [x] + s
    else [s[0]] + InsertByOrder(x, s[1..])
  }

  /** Inserting adds exactly `x`. */
  lemma {:induction false} InsertByOrderAddsOne(x: Row, s: seq<Row>)
    ensures multiset(InsertByOrder(x, s)) == multiset(s) + multiset{x}
  {
    if s != [] && x.displayOrder >= s[0].displayOrder {
      InsertByOrderAddsOne(x, s[1..]);
      assert s == [s[0]] + s[1..];
    }
  }

  /** Inserting into an ordered sequence keeps it ordered. */
  lemma {:induction false} InsertByOrderSorted(x: Row, s: seq<Row>)
    requires SortedByOrder(s)
    ensures SortedByOrder(InsertByOrder(x, s))
    ensures s != [] && x.displayOrder >= s[0].displayOrder ==> InsertByOrder(x, s)[0] == s[0]
  {
    if s != [] && x.displayOrder >= s[0].displayOrder {
      var rest := InsertByOrder(x, s[1..]);
      InsertByOrderSorted(x, s[1..]);
      assert rest[0].displayOrder >= s[0].displayOrder;
      var r := [s[0]] + rest;
      forall i, j | 0 <= i < j < |r| ensures r[i].displayOrder <= r[j].displayOrder {
        if i > 0 {
          assert r[i] == rest[i - 1] && r[j] == rest[j - 1];
        } else {
          assert r[j] == rest[j - 1];
          assert rest[0].displayOrder <= rest[j - 1].displayOrder;
        }
      }
    }
  }

  /** `.order('display_order', {ascending: true})`, ties kept in table order. */
  function SortByOrder(rows: seq<Row>): (r: seq<Row>)
    ensures SortedByOrder(r) && multiset(r) == multiset(rows) && |r| == |rows|
    ensures forall k :: 0 <= k < |r| ==> r[k] in rows
  {
    if rows == [] then []
    else
      var n := |rows| - 1;
      assert rows == rows[..n] + [rows[n]];
      var r := InsertByOrder(rows[n], SortByOrder(rows[..n]));
      InsertByOrderSorted(rows[n], SortByOrder(rows[..n]));
      InsertByOrderAddsOne(rows[n], SortByOrder(rows[..n]));
      assert forall k :: 0 <= k < |r| ==> r[k] in multiset(rows);
      r
  }

  lemma KeptAfterSort(rows: seq<Row>, categoryId: Option<string>, featuredOnly: bool)
    requires forall k :: 0 <= k < |rows| ==> Keep(rows[k], categoryId, featuredOnly)
    ensures forall k :: 0 <= k < |SortByOrder(rows)| ==> Keep(SortByOrder(rows)[k], categoryId, featuredOnly)
  {
    var r := SortByOrder(rows);
    forall k | 0 <= k < |r| ensures Keep(r[k], categoryId, featuredOnly) {
      assert r[k] in rows;
      var j :| 0 <= j < |rows| && rows[j] == r[k];
    }
  }

  /** `.range(offset, offset + limit - 1)` on an ordered result. */
  function Window(s: seq<Row>, offset: nat, limit: nat): (r: seq<Row>)
    ensures |r| == if offset >= |s| then 0 else if offset + limit <= |s| then limit else |s| - offset
    ensures forall k :: 0 <= k < |r| ==> r[k] == s[offset + k]
  {
    if offset >= |s| then [] else s[offset..if offset + limit <= |s| then offset + limit else |s|]
  }

  datatype Pagination = Pagination(limit: int, offset: int, hasMore: bool)

  datatype Response =
    | Listing(photos: seq<Row>, pagination: Pagination)
    | ServerError(error: string) // 500

  /**
   * The answers of the store for one request: the error of the photos
   * query, if any, the message with which it rejects an unusable range
   * (NaN or negative bounds), and whether the category lookup errs.
   */
  datatype StoreAnswers = StoreAnswers(queryError: Option<string>, rangeError: string, lookupFails: bool)

  /** `GET /api/photos`. */
  function ListPhotos(q: Query, rows: seq<Row>, cats: seq<Category>, store: StoreAnswers): (resp: Response)
    ensures store.queryError.Some? ==> resp == ServerError(store.queryError.value)
    ensures var limit := ParamOr(q.limit, DefaultLimit);
            var offset := ParamOr(q.offset, DefaultOffset);
            resp.Listing? ==>
              && store.queryError.None?
              && limit.Some? && limit.value >= 0 && offset.Some? && offset.value >= 0
              && resp.pagination.limit == limit.value && resp.pagination.offset == offset.value
              && (resp.pagination.hasMore <==> |resp.photos| == limit.value)
              && SortedByOrder(resp.photos)
              && |resp.photos| <= limit.value
              && (forall k :: 0 <= k < |resp.photos| ==>
                    Keep(resp.photos[k], CategoryFilter(cats, q.category, store.lookupFails), q.featured == Some("true")))
  {
    var limit := ParamOr(q.limit, DefaultLimit);
    var offset := ParamOr(q.offset, DefaultOffset);
    var catFilter := CategoryFilter(cats, q.category, store.lookupFails);
    var featured := q.featured == Some("true");
    if store.queryError.Some? then ServerError(store.queryError.value)
    else if limit.None? || offset.None? || limit.value < 0 || offset.value < 0 then ServerError(store.rangeError)
    else
      var ordered := SortByOrder(Filter(rows, catFilter, featured));
      var page := Window(ordered, offset.value, limit.value);
      KeptAfterSort(Filter(rows, catFilter, featured), catFilter, featured);
      Listing(page, Pagination(limit.value, offset.value, |page| == limit.value))
  }

  /** The listing is the window of the filtered rows in display order. */
  lemma ListingIsWindowOfOrderedRows(q: Query, rows: seq<Row>, cats: seq<Category>, store: StoreAnswers)
    requires store.queryError.None?
    requires ParamOr(q.limit, DefaultLimit).Some? && ParamOr(q.limit, DefaultLimit).value >= 0
    requires ParamOr(q.offset, DefaultOffset).Some? && ParamOr(q.offset, DefaultOffset).value >= 0
    ensures var limit := ParamOr(q.limit, DefaultLimit).value;
            var offset := ParamOr(q.offset, DefaultOffset).value;
            ListPhotos(q, rows, cats, store).Listing? &&
            ListPhotos(q, rows, cats, store).photos ==
              Window(SortByOrder(Filter(rows, CategoryFilter(cats, q.category, store.lookupFails), q.featured == Some("true"))), offset, limit)
  {
  }

  /** A slug that matches no category lists the same rows as no slug at all. */
  lemma UnknownSlugIgnored(q: Query, rows: seq<Row>, cats: seq<Category>, store: StoreAnswers)
    requires q.category.Some? && MatchingIds(cats, q.category.value) == []
    ensures ListPhotos(q, rows, cats, store) == ListPhotos(q.(category := None), rows, cats, store)
  {
  }

  /** A category lookup that errs lists the same rows as no slug at all. */
  lemma FailedLookupIgnored(q: Query, rows: seq<Row>, cats: seq<Category>, store: StoreAnswers)
    requires store.lookupFails
    ensures ListPhotos(q, rows, cats, store) == ListPhotos(q.(category := None), rows, cats, store)
  {
  }

  /** With the defaults and no filter, the first 20 rows in display order come back. */
  lemma DefaultPage(rows: seq<Row>, cats: seq<Category>)
    ensures var resp := ListPhotos(Query(None, None, None, None), rows, cats, StoreAnswers(None, "", false));
            resp.Listing? && resp.pagination == Pagination(20, 0, |resp.photos| == 20) &&
            resp.photos == Window(SortByOrder(Filter(rows, None, false)), 0, 20)
  {
    DefaultsAreTwentyAndZero();
  }

  /** Featured filtering needs the exact value 'true'. */
  lemma FeaturedNeedsExactTrue(q: Query, rows: seq<Row>, cats: seq<Category>, store: StoreAnswers)
    requires q.featured != Some("true")
    ensures ListPhotos(q, rows, cats, store) == ListPhotos(q.(featured := None), rows, cats, store)
  {
  }
}
