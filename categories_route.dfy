/**
 * Category creation, `POST /api/admin/categories` of
 * src/app/api/admin/categories/route.ts, and its slug rule.
 */
module CategoriesRoute {
  import opened Wrappers
  import opened Text

  predicate IsSlugChar(c: char) {
    IsLowerLetter(c) || IsDigit(c) || c == '-'
  }

  /** `.replace(/\s+/g, '-')`: every maximal run of whitespace becomes one '-'. */
  function Hyphenate(s: string): (r: string)
    ensures forall i :: 0 <= i < |r| ==> !IsSpace(r[i])
    ensures |r| <= |s|
    decreases |s|
  {
    if s == [] then []
    else if IsSpace(s[0]) then "-" + Hyphenate(s[LeadingSpaces(s)..])
    else [s[0]] + Hyphenate(s[1..])
  }

  /** `.replace(/[^a-z0-9-]/g, '')`: every other character is deleted. */
  function KeepSlugChars(s: string): (r: string)
    ensures forall i :: 0 <= i < |r| ==> IsSlugChar(r[i])
    ensures |r| <= |s|
  {
    if s == [] then []
    else (if IsSlugChar(s[0]) then [s[0]] else []) + KeepSlugChars(s[1..])
  }

  /** `name.toLowerCase().replace(/\s+/g, '-').replace(/[^a-z0-9-]/g, '')`. */
  function Slug(name: string): (slug: string)
    ensures forall i :: 0 <= i < |slug| ==> IsSlugChar(slug[i])
    ensures |slug| <= |name|
  {
    KeepSlugChars(Hyphenate(Lower(name)))
  }

  lemma {:induction false} HyphenateWithoutSpace(s: string)
    requires forall i :: 0 <= i < |s| ==> !IsSpace(s[i])
    ensures Hyphenate(s) == s
  {
    if s != [] {
      HyphenateWithoutSpace(s[1..]);
    }
  }

  lemma {:induction false} KeepSlugCharsOfSlug(s: string)
    requires forall i :: 0 <= i < |s| ==> IsSlugChar(s[i])
    ensures KeepSlugChars(s) == s
  {
    if s != [] {
      KeepSlugCharsOfSlug(s[1..]);
    }
  }

  /** A slug is its own slug. */
  lemma SlugIsIdempotent(name: string)
    ensures Slug(Slug(name)) == Slug(name)
  {
    var s := Slug(name);
    LowerIdentity(s);
    HyphenateWithoutSpace(s);
    KeepSlugCharsOfSlug(s);
  }

  lemma SlugOfLandscape(name: string)
    requires name == "Landscape"
    ensures Slug(name) == "landscape"
  {
    var lower := Lower(name);
    assert lower == "landscape";
    assert forall i :: 0 <= i < |lower| ==> IsLowerLetter(lower[i]);
    HyphenateWithoutSpace(lower);
    KeepSlugCharsOfSlug(lower);
  }

  /** `toLowerCase` works character by character, so it distributes over concatenation. */
  lemma LowerAppend(a: string, b: string)
    ensures Lower(a + b) == Lower(a) + Lower(b)
  {
  }

  /** One blank before a non-blank becomes one hyphen. */
  lemma HyphenateSingleBlank(x: string)
    requires x != [] && !IsSpace(x[0])
    ensures Hyphenate(" " + x) == "-" + Hyphenate(x)
  {
    var s := " " + x;
    assert s[1..] == x;
    assert LeadingSpaces(x) == 0;
    assert LeadingSpaces(s) == 1;
  }

  lemma {:induction false} KeepSlugCharsOfNone(s: string)
    requires forall i :: 0 <= i < |s| ==> !IsSlugChar(s[i])
    ensures KeepSlugChars(s) == ""
  {
    if s != [] {
      KeepSlugCharsOfNone(s[1..]);
    }
  }

  predicate NoSpace(s: string) {
    forall i :: 0 <= i < |s| ==> !IsSpace(s[i])
  }

  predicate Letters(s: string) {
    forall i :: 0 <= i < |s| ==> IsLowerLetter(s[i]) || IsUpperLetter(s[i])
  }

  /** A character the slug rule neither keeps, nor turns into a hyphen, nor lower-cases. */
  predicate IsSymbol(c: char) {
    !IsSlugChar(c) && !IsSpace(c) && !IsUpperLetter(c)
  }

  predicate Symbols(s: string) {
    forall i :: 0 <= i < |s| ==> IsSymbol(s[i])
  }

  lemma LowerLetters(a: string)
    requires Letters(a)
    ensures forall i :: 0 <= i < |Lower(a)| ==> IsLowerLetter(Lower(a)[i])
  {
  }

  lemma LowerAroundSymbol(a: string, c: char, b: string, tail: string)
    requires IsSymbol(c) && Symbols(tail)
    ensures Lower(a + (" " + ([c] + (" " + (b + tail))))) == Lower(a) + (" " + ([c] + (" " + (Lower(b) + tail))))
  {
    LowerIdentity(tail);
    LowerIdentity([c]);
    LowerIdentity(" ");
    LowerAppend(b, tail);
    LowerAppend(" ", b + tail);
    LowerAppend([c], " " + (b + tail));
    LowerAppend(" ", [c] + (" " + (b + tail)));
    LowerAppend(a, " " + ([c] + (" " + (b + tail))));
  }

  lemma HyphenateAroundSymbol(la: string, c: char, lb: string, tail: string)
    requires NoSpace(la) && NoSpace(lb) && lb != [] && IsSymbol(c) && Symbols(tail)
    ensures Hyphenate(la + (" " + ([c] + (" " + (lb + tail))))) == la + ("-" + ([c] + ("-" + (lb + tail))))
  {
    var rest := lb + tail;
    assert NoSpace(rest);
    HyphenateWithoutSpace(rest);
    assert rest[0] == lb[0];
    HyphenateSingleBlank(rest);
    assert NoSpace([c]);
    HyphenateAppend([c], " " + rest);
    assert ([c] + (" " + rest))[0] == c;
    HyphenateSingleBlank([c] + (" " + rest));
    HyphenateAppend(la, " " + ([c] + (" " + rest)));
  }

  lemma KeepAroundSymbol(la: string, c: char, lb: string, tail: string)
    requires forall i :: 0 <= i < |la| ==> IsSlugChar(la[i])
    requires forall i :: 0 <= i < |lb| ==> IsSlugChar(lb[i])
    requires IsSymbol(c) && Symbols(tail)
    ensures KeepSlugChars(la + ("-" + ([c] + ("-" + (lb + tail))))) == la + ("-" + ("-" + lb))
  {
    KeepSlugCharsOfSlug(la);
    KeepSlugCharsOfSlug(lb);
    KeepSlugCharsOfSlug("-");
    KeepSlugCharsOfNone([c]);
    KeepSlugCharsOfNone(tail);
    KeepSlugCharsAppend(lb, tail);
    assert lb + "" == lb;
    KeepSlugCharsAppend("-", lb + tail);
    KeepSlugCharsAppend([c], "-" + (lb + tail));
    assert "" + ("-" + lb) == "-" + lb;
    KeepSlugCharsAppend("-", [c] + ("-" + (lb + tail)));
    KeepSlugCharsAppend(la, "-" + ([c] + ("-" + (lb + tail))));
  }

  /**
   * A symbol between two blanks leaves two hyphens: the blanks become
   * hyphens and the symbol is deleted, and nothing merges them. Trailing
   * symbols vanish.
   */
  lemma SlugAroundSymbol(a: string, c: char, b: string, tail: string)
    requires Letters(a) && Letters(b) && b != []
    requires IsSymbol(c) && Symbols(tail)
    ensures Slug(a + (" " + ([c] + (" " + (b + tail))))) == Lower(a) + ("-" + ("-" + Lower(b)))
  {
    var la, lb := Lower(a), Lower(b);
    LowerAroundSymbol(a, c, b, tail);
    LowerLetters(a);
    LowerLetters(b);
    HyphenateAroundSymbol(la, c, lb, tail);
    KeepAroundSymbol(la, c, lb, tail);
  }

  lemma BlackAndWhiteParts(name: string)
    requires name == "Black & White!!"
    ensures name == "Black" + (" " + (['&'] + (" " + ("White" + "!!"))))
    ensures Letters("Black") && Letters("White") && Symbols("!!") && IsSymbol('&')
    ensures Lower("Black") == "black" && Lower("White") == "white"
  {
  }

  /** "Black & White!!" becomes "black--white": hyphens are not collapsed. */
  lemma SlugKeepsDoubleHyphen(name: string)
    requires name == "Black & White!!"
    ensures Slug(name) == "black--white"
  {
    BlackAndWhiteParts(name);
    SlugAroundSymbol("Black", '&', "White", "!!");
  }

  /** A blank on each side of a blank-free text becomes a hyphen on each side. */
  lemma HyphenateEdges(x: string)
    requires x != [] && NoSpace(x)
    ensures Hyphenate(" " + x + " ") == "-" + x + "-"
  {
    assert " " + "" == " ";
    HyphenateRun(" ", "");
    HyphenateAppend(x, " ");
    assert " " + x + " " == " " + (x + " ");
    HyphenateRun(" ", x + " ");
  }

  /** Leading and trailing whitespace each become a hyphen that stays. */
  lemma SlugKeepsEdgeHyphens(x: string)
    requires x != [] && forall i :: 0 <= i < |x| ==> IsSlugChar(x[i])
    ensures Slug(" " + x + " ") == "-" + x + "-"
  {
    LowerIdentity(" " + x + " ");
    HyphenateEdges(x);
    KeepSlugCharsOfSlug("-" + x + "-");
  }

  lemma {:induction false} HyphenateAppend(a: string, b: string)
    requires forall i :: 0 <= i < |a| ==> !IsSpace(a[i])
    ensures Hyphenate(a + b) == a + Hyphenate(b)
  {
    if a != [] {
      assert (a + b)[1..] == a[1..] + b;
      HyphenateAppend(a[1..], b);
    } else {
      assert a + b == b;
    }
  }

  /** The leading blanks of a blank run followed by a non-blank are exactly the run. */
  lemma {:induction false} LeadingSpacesOfRun(w: string, x: string)
    requires AllSpace(w)
    requires x == [] || !IsSpace(x[0])
    ensures LeadingSpaces(w + x) == |w|
  {
    if w != [] {
      assert (w + x)[1..] == w[1..] + x;
      LeadingSpacesOfRun(w[1..], x);
    } else {
      assert w + x == x;
    }
  }

  /** A maximal run of blanks, however long, becomes one hyphen. */
  lemma HyphenateRun(w: string, x: string)
    requires w != [] && AllSpace(w)
    requires x == [] || !IsSpace(x[0])
    ensures Hyphenate(w + x) == "-" + Hyphenate(x)
  {
    LeadingSpacesOfRun(w, x);
    assert (w + x)[|w|..] == x;
  }

  lemma {:induction false} KeepSlugCharsAppend(a: string, b: string)
    ensures KeepSlugChars(a + b) == KeepSlugChars(a) + KeepSlugChars(b)
  {
    if a != [] {
      assert (a + b)[1..] == a[1..] + b;
      KeepSlugCharsAppend(a[1..], b);
    } else {
      assert a + b == b;
    }
  }

  /** A JSON value as far as `||` and the string methods care. */
  datatype Value = Undefined | Null | Str(s: string) | Num(n: int) | Bool(b: bool)

  predicate Truthy(v: Value) {
    match v
    case Undefined => false
    case Null => false
    case Str(s) => s != ""
    case Num(n) => n != 0
    case Bool(b) => b
  }

  datatype CategoryBody = CategoryBody(name: Value, description: Value, displayOrder: Value)

  datatype CategoryInsert = CategoryInsert(name: string, slug: string, description: Value, displayOrder: Value)

  datatype Response =
    | Unauthorized                     // 401
    | BadRequest(error: string)        // 400
    | Created(category: CategoryInsert)
    | Failure(error: string)           // 500

  const NameRequired: string := "Name is required"
  const CreateFailed: string := "Failed to create category"

  /**
   * The handler, given the session check and the parsed body (None when
   * parsing fails or the body is null, both of which throw) and the
   * insert's error message, if any.
   */
  function Post(authenticated: bool, body: Option<CategoryBody>, insertError: Option<string>): (r: Response)
    ensures !authenticated ==> r == Unauthorized
    ensures authenticated && body.None? ==> r == Failure(CreateFailed)
    ensures authenticated && body.Some? && !Truthy(body.value.name) ==> r == BadRequest(NameRequired)
    ensures r.Created? ==>
              && authenticated && body.Some? && body.value.name.Str? && insertError.None?
              && r.category.name == body.value.name.s
              && r.category.slug == Slug(body.value.name.s)
              && r.category.description == (if Truthy(body.value.description) then body.value.description else Null)
              && r.category.displayOrder == (if Truthy(body.value.displayOrder) then body.value.displayOrder else Num(0))
    ensures authenticated && body.Some? && Truthy(body.value.name) && !body.value.name.Str? ==>
              r == Failure(CreateFailed)
    ensures authenticated && body.Some? && body.value.name.Str? && body.value.name.s != "" && insertError.Some? ==>
              r == Failure(insertError.value)
    ensures authenticated && body.Some? && body.value.name.Str? && body.value.name.s != "" && insertError.None? ==>
              r.Created?
  {
    if !authenticated then Unauthorized
    else if body.None? then Failure(CreateFailed)
    else
      var b := body.value;
      if !Truthy(b.name) then BadRequest(NameRequired)
      // A truthy name that is not a string has no `toLowerCase`: the call throws.
      else if !b.name.Str? then Failure(CreateFailed)
      else
        var record := CategoryInsert(b.name.s, Slug(b.name.s),
                                     if Truthy(b.description) then b.description else Null,
                                     if Truthy(b.displayOrder) then b.displayOrder else Num(0));
        if insertError.Some? then Failure(insertError.value) else Created(record)
  }

  /** Without a description or order the defaults are null and 0. */
  lemma MissingFieldsDefault(name: string)
    requires name != ""
    ensures Post(true, Some(CategoryBody(Str(name), Undefined, Undefined)), None) ==
            Created(CategoryInsert(name, Slug(name), Null, Num(0)))
  {
  }
}
