/**
 * The photo upload endpoint of src/app/api/photos/upload/route.ts.
 *
 * The handler is a function of the submitted form and of the answers of
 * the foreign services (EXIF extraction, the two storage uploads, the
 * database insert, the clock). It returns the HTTP response and the log of
 * side effects it caused, in order.
 */
module UploadRoute {
  import opened Wrappers
  import opened Text
  import opened Storage
  import Revalidation

  const RequiredMessage: string := "File and title are required fields."
  /** The route's own size message says "the 10MB limit". */
  const RouteTooLargeMessage: string := "File size exceeds the 10MB limit."
  /** New photos sort after the existing ones. */
  const DefaultDisplayOrder: int := 999

  /** What `formData.get('file')` yields: no entry, a plain text field, or an uploaded file. */
  datatype FileEntry = NoFile | TextEntry(text: string) | Attached(value: FileInfo)

  /** The multipart fields; None is a field `formData.get` does not find. */
  datatype UploadForm = UploadForm(
    file: FileEntry,
    title: Option<string>,
    description: Option<string>,
    categoryId: Option<string>,
    isFeatured: Option<string>,
    isBlackWhite: Option<string>)

  type Exif = map<string, string>

  datatype Metadata = Metadata(originalName: string, mimeType: string, uploadedAt: string, exif: Exif, colorMode: string)

  /** The row inserted into `photos`. */
  datatype PhotoRecord = PhotoRecord(
    title: string,
    description: Option<string>,
    categoryId: Option<string>,
    filename: string,
    fileSize: nat,
    width: nat,
    height: nat,
    storagePath: string,
    publicUrl: string,
    thumbnailPath: string,
    thumbnailUrl: string,
    isFeatured: bool,
    isBlackWhite: bool,
    displayOrder: int,
    metadata: Metadata)

  datatype Effect =
    | ReadDimensions
    | ReadExif
    | Store(call: StorageCall)
    | Insert(record: PhotoRecord)
    | Revalidate(path: string)

  datatype ResponseBody = ErrorBody(error: string) | PhotoBody(photo: PhotoRecord)
  datatype Response = Response(status: nat, body: ResponseBody)

  /** The answers of the foreign services for one request. */
  datatype Services = Services(
    exif: Result<Option<Exif>, string>, // extractExifData: a value, null, or a thrown message
    original: UploadEnv,                // uploadImage into photos
    thumbnail: UploadEnv,               // createThumbnail
    uploadedAt: string,                 // new Date().toISOString()
    insertError: Option<string>)        // the insert's error message, if any

  datatype Handled = Handled(response: Response, effects: seq<Effect>)

  /** A form value is truthy: present and not the empty string. */
  predicate Truthy(v: Option<string>) {
    v.Some? && v.value != ""
  }

  /** `!file` is false: a file, or a text field that is not empty. */
  predicate FileTruthy(e: FileEntry) {
    e.Attached? || (e.TextEntry? && e.text != "")
  }

  /** `formData.get(k) === 'true'`. */
  predicate IsTrueFlag(v: Option<string>) {
    v == Some("true")
  }

  /** `v?.trim() || null`: blank becomes null, anything else its trimmed text. */
  function CleanOptional(v: Option<string>): (r: Option<string>)
    ensures r.None? <==> v.None? || AllSpace(v.value)
    ensures r.Some? ==> r.value == Trim(v.value) && r.value != ""
  {
    if v.None? then None
    else
      BlankIffAllSpace(v.value);
      var t := Trim(v.value);
      if t == "" then None else Some(t)
  }

  /**
   * The checks of lines 59-80, in order; the first that fails decides the
   * message. A text field has no `type`, so it fails the type check.
   */
  function Validate(form: UploadForm): (r: Result<FileInfo, string>)
    ensures (!FileTruthy(form.file) || !Truthy(form.title)) ==> r == Err(RequiredMessage)
    ensures form.file.TextEntry? && form.file.text != "" && Truthy(form.title) ==> r == Err(InvalidTypeMessage)
    ensures form.file.Attached? && Truthy(form.title) && !IsAllowedType(form.file.value.mimeType) ==>
              r == Err(InvalidTypeMessage)
    ensures (form.file.Attached? && Truthy(form.title) && IsAllowedType(form.file.value.mimeType) &&
             form.file.value.size > MaxFileSize) ==> r == Err(RouteTooLargeMessage)
    ensures r.Ok? <==> form.file.Attached? && Truthy(form.title) && PassesUploadChecks(form.file.value)
    ensures r.Ok? ==> r.value == form.file.value
  {
    if !FileTruthy(form.file) || !Truthy(form.title) then Err(RequiredMessage)
    else if form.file.TextEntry? then Err(InvalidTypeMessage)
    else if !IsAllowedType(form.file.value.mimeType) then Err(InvalidTypeMessage)
    else if form.file.value.size > MaxFileSize then Err(RouteTooLargeMessage)
    else Ok(form.file.value)
  }

  function ColorModeLabel(isBlackWhite: bool): string {
    if isBlackWhite then "black_white" else "color"
  }

  /**
   * The object literal of lines 100-122: the form's fields, the file's name,
   * size and type, and what the services answered.
   */
  function BuildRecord(form: UploadForm, file: FileInfo, dims: Dimensions, main: Uploaded, thumb: Uploaded,
                       exif: Option<Exif>, uploadedAt: string): (r: PhotoRecord)
    requires form.title.Some?
    ensures form.file == Attached(file) ==> RecordReflectsForm(r, form)
    ensures r.width == dims.width && r.height == dims.height
    ensures r.storagePath == main.path && r.publicUrl == main.publicUrl
    ensures r.thumbnailPath == thumb.path && r.thumbnailUrl == thumb.publicUrl
    ensures r.metadata.uploadedAt == uploadedAt
    ensures r.metadata.exif == if exif.Some? then exif.value else map[]
  {
    var isBlackWhite := IsTrueFlag(form.isBlackWhite);
    PhotoRecord(
      form.title.value,
      CleanOptional(form.description),
      CleanOptional(form.categoryId),
      file.name,
      file.size,
      dims.width,
      dims.height,
      main.path,
      main.publicUrl,
      thumb.path,
      thumb.publicUrl,
      IsTrueFlag(form.isFeatured),
      isBlackWhite,
      DefaultDisplayOrder,
      Metadata(file.name, file.mimeType, uploadedAt, exif.GetOr(map[]), ColorModeLabel(isBlackWhite)))
  }

  /** What the inserted record promises about the form it came from. */
  predicate RecordReflectsForm(r: PhotoRecord, form: UploadForm) {
    && form.file.Attached? && form.title.Some?
    && r.title == form.title.value
    && r.description == CleanOptional(form.description)
    && r.categoryId == CleanOptional(form.categoryId)
    && (r.isFeatured <==> form.isFeatured == Some("true"))
    && (r.isBlackWhite <==> form.isBlackWhite == Some("true"))
    && (r.metadata.colorMode == "black_white" <==> r.isBlackWhite)
    && (r.metadata.colorMode == "color" <==> !r.isBlackWhite)
    && r.displayOrder == 999
    && r.filename == form.file.value.name && r.metadata.originalName == form.file.value.name
    && r.fileSize == form.file.value.size && r.metadata.mimeType == form.file.value.mimeType
  }

  predicate NoRevalidation(fx: seq<Effect>) {
    forall k :: 0 <= k < |fx| ==> !fx[k].Revalidate?
  }

  function StoreEffects(calls: seq<StorageCall>): (fx: seq<Effect>)
    ensures |fx| == |calls| && forall k :: 0 <= k < |calls| ==> fx[k] == Store(calls[k])
  {
    seq(|calls|, k requires 0 <= k < |calls| => Store(calls[k]))
  }

  function RevalidateEffects(paths: seq<string>): (fx: seq<Effect>)
    ensures |fx| == |paths| && forall k :: 0 <= k < |paths| ==> fx[k] == Revalidate(paths[k])
  {
    seq(|paths|, k requires 0 <= k < |paths| => Revalidate(paths[k]))
  }

  /** The step that inserts the record and, only on success, revalidates. */
  function InsertAndRevalidate(record: PhotoRecord, before: seq<Effect>, insertError: Option<string>): (h: Handled)
    ensures insertError.Some? ==>
              h == Handled(Response(500, ErrorBody("Database error: " + insertError.value)), before + [Insert(record)])
    ensures insertError.None? ==>
              h == Handled(Response(200, PhotoBody(record)),
                           before + [Insert(record)] + RevalidateEffects(Revalidation.DefaultPaths))
  {
    var fx := before + [Insert(record)];
    if insertError.Some? then Handled(Response(500, ErrorBody("Database error: " + insertError.value)), fx)
    else Handled(Response(200, PhotoBody(record)), fx + RevalidateEffects(Revalidation.PathsFor(None)))
  }

  /** Every upload step succeeds. */
  predicate AllStepsSucceed(form: UploadForm, svc: Services) {
    && Validate(form).Ok?
    && svc.exif.Ok?
    && UploadImage(form.file.value, PhotosBucket, svc.original).result.Ok?
    && CreateThumbnail(form.file.value, svc.thumbnail).result.Ok?
    && svc.insertError.None?
  }

  /** `POST /api/photos/upload`. */
  function Post(form: UploadForm, svc: Services): (h: Handled)
    ensures Validate(form).Err? ==> h == Handled(Response(400, ErrorBody(Validate(form).error)), [])
    ensures Validate(form).Ok? ==> h == AfterValidation(form, Validate(form).value, svc)
  {
    match Validate(form)
    case Err(msg) => Handled(Response(400, ErrorBody(msg)), [])
    case Ok(file) => AfterValidation(form, file, svc)
  }

  /**
   * The request as the handler receives it: a body that `request.formData()`
   * could not parse, with the message of the error it threw, or the parsed form.
   */
  datatype Request = Unparseable(message: string) | Parsed(form: UploadForm)

  /** Lines 35-158: a body that fails to parse goes straight to the catch of lines 150-158. */
  function HandleRequest(req: Request, svc: Services): (h: Handled)
    ensures req.Unparseable? ==> h == Handled(Response(500, ErrorBody(req.message)), [])
    ensures req.Parsed? ==> h == Post(req.form, svc)
  {
    match req
    case Unparseable(msg) => Handled(Response(500, ErrorBody(msg)), [])
    case Parsed(form) => Post(form, svc)
  }

  /** A 200 answer needs a parsed body on which every step succeeds; any other answer revalidates nothing. */
  lemma RequestSuccessIffParsedAndAllStepsSucceed(req: Request, svc: Services)
    ensures var h := HandleRequest(req, svc);
            (h.response.status == 200 <==> req.Parsed? && AllStepsSucceed(req.form, svc)) &&
            (h.response.status != 200 ==> NoRevalidation(h.effects))
  {
    if req.Parsed? {
      SuccessIffAllStepsSucceed(req.form, svc);
    }
  }

  /** A `file` entry that is text is refused before any service is called. */
  lemma TextFileEntryIsRefused(form: UploadForm, svc: Services)
    requires form.file.TextEntry?
    ensures Post(form, svc) == Handled(Response(400, ErrorBody(
              if form.file.text != "" && Truthy(form.title) then InvalidTypeMessage else RequiredMessage)), [])
  {
  }

  /** Lines 84-148 once the form is valid: dimensions and EXIF are read first. */
  function AfterValidation(form: UploadForm, file: FileInfo, svc: Services): (h: Handled)
    requires Validate(form) == Ok(file)
    ensures |h.effects| >= 2 && h.effects[..2] == [ReadDimensions, ReadExif]
    ensures svc.exif.Err? ==> h == Handled(Response(500, ErrorBody(svc.exif.error)), [ReadDimensions, ReadExif])
    ensures svc.exif.Ok? ==>
              var rest := StoreAndInsert(form, file, svc.exif.value, svc);
              h == Handled(rest.response, [ReadDimensions, ReadExif] + rest.effects)
  {
    var fx := [ReadDimensions, ReadExif];
    match svc.exif
    case Err(msg) => Handled(Response(500, ErrorBody(msg)), fx)
    case Ok(exif) =>
      var rest := StoreAndInsert(form, file, exif, svc);
      Handled(rest.response, fx + rest.effects)
  }

  /** Lines 91-148: upload the original, then the thumbnail, then insert. */
  function StoreAndInsert(form: UploadForm, file: FileInfo, exif: Option<Exif>, svc: Services): (h: Handled)
    requires Validate(form) == Ok(file)
    ensures h.response.status in {200, 500}
    ensures h.response.status == 200 ==>
              h.response.body.PhotoBody? && RecordReflectsForm(h.response.body.photo, form) &&
              h.response.body.photo.metadata.exif == exif.GetOr(map[])
  {
    var main := UploadImage(file, PhotosBucket, svc.original);
    if main.result.Err? then Handled(Response(500, ErrorBody(main.result.error)), StoreEffects(main.calls))
    else
      var thumb := CreateThumbnail(file, svc.thumbnail);
      var fx := StoreEffects(main.calls) + StoreEffects(thumb.calls);
      if thumb.result.Err? then Handled(Response(500, ErrorBody(thumb.result.error)), fx)
      else
        // getImageDimensions runs on the server here, so it answers the placeholder.
        var dims := GetImageDimensions(true, None).value;
        var record := BuildRecord(form, file, dims, main.result.value, thumb.result.value, exif, svc.uploadedAt);
        assert RecordReflectsForm(record, form) && record.metadata.exif == exif.GetOr(map[]);
        InsertAndRevalidate(record, fx, svc.insertError)
  }

  /** The response is 200 exactly when every step succeeds; otherwise nothing is revalidated. */
  lemma SuccessIffAllStepsSucceed(form: UploadForm, svc: Services)
    ensures var h := Post(form, svc);
            (h.response.status == 200 <==> AllStepsSucceed(form, svc)) &&
            h.response.status in {200, 400, 500} &&
            (h.response.status != 200 ==> NoRevalidation(h.effects))
  {
    var h := Post(form, svc);
    if Validate(form).Ok? {
      var file := form.file.value;
      if svc.exif.Ok? {
        var rest := StoreAndInsert(form, file, svc.exif.value, svc);
        StoreAndInsertOutcome(form, file, svc.exif.value, svc);
        assert h == Handled(rest.response, [ReadDimensions, ReadExif] + rest.effects);
        if rest.response.status != 200 {
          ReadsDoNotRevalidate(rest.effects);
        }
      } else {
        assert h == Handled(Response(500, ErrorBody(svc.exif.error)), [ReadDimensions, ReadExif]);
      }
    }
  }

  lemma ReadsDoNotRevalidate(rest: seq<Effect>)
    requires NoRevalidation(rest)
    ensures NoRevalidation([ReadDimensions, ReadExif] + rest)
  {
    var fx := [ReadDimensions, ReadExif] + rest;
    forall k | 2 <= k < |fx| ensures !fx[k].Revalidate? {
      assert fx[k] == rest[k - 2];
    }
  }

  lemma StoreAndInsertOutcome(form: UploadForm, file: FileInfo, exif: Option<Exif>, svc: Services)
    requires Validate(form) == Ok(file)
    ensures var h := StoreAndInsert(form, file, exif, svc);
            (h.response.status == 200 <==>
               UploadImage(file, PhotosBucket, svc.original).result.Ok? &&
               CreateThumbnail(file, svc.thumbnail).result.Ok? && svc.insertError.None?) &&
            h.response.status in {200, 500} &&
            (h.response.status != 200 ==> NoRevalidation(h.effects))
  {
    var main := UploadImage(file, PhotosBucket, svc.original);
    var thumb := CreateThumbnail(file, svc.thumbnail);
    if main.result.Err? {
      UploadFailed(form, file, exif, svc);
    } else if thumb.result.Err? {
      ThumbnailFailed(form, file, exif, svc);
    } else {
      BothStored(form, file, exif, svc);
      InsertOutcome(form, file, exif, svc);
    }
  }

  lemma UploadFailed(form: UploadForm, file: FileInfo, exif: Option<Exif>, svc: Services)
    requires Validate(form) == Ok(file)
    requires UploadImage(file, PhotosBucket, svc.original).result.Err?
    ensures var h := StoreAndInsert(form, file, exif, svc);
            h.response.status == 500 && NoRevalidation(h.effects)
  {
    StoresDoNotRevalidate(UploadImage(file, PhotosBucket, svc.original).calls, []);
  }

  lemma ThumbnailFailed(form: UploadForm, file: FileInfo, exif: Option<Exif>, svc: Services)
    requires Validate(form) == Ok(file)
    requires UploadImage(file, PhotosBucket, svc.original).result.Ok?
    requires CreateThumbnail(file, svc.thumbnail).result.Err?
    ensures var h := StoreAndInsert(form, file, exif, svc);
            h.response.status == 500 && NoRevalidation(h.effects)
  {
    StoresDoNotRevalidate(UploadImage(file, PhotosBucket, svc.original).calls, CreateThumbnail(file, svc.thumbnail).calls);
  }

  lemma InsertOutcome(form: UploadForm, file: FileInfo, exif: Option<Exif>, svc: Services)
    requires Validate(form) == Ok(file)
    requires UploadImage(file, PhotosBucket, svc.original).result.Ok?
    requires CreateThumbnail(file, svc.thumbnail).result.Ok?
    ensures var h := StoreAndInsert(form, file, exif, svc);
            && (h.response.status == 200 <==> svc.insertError.None?)
            && h.response.status in {200, 500}
            && (h.response.status != 200 ==> NoRevalidation(h.effects))
  {
    BothStored(form, file, exif, svc);
    var main := UploadImage(file, PhotosBucket, svc.original);
    var thumb := CreateThumbnail(file, svc.thumbnail);
    var record := BuildRecord(form, file, Dimensions(1920, 1080), main.result.value, thumb.result.value,
                              exif, svc.uploadedAt);
    InsertStepOutcome(record, Store(main.calls[0]), Store(thumb.calls[0]), svc.insertError);
  }

  lemma InsertStepOutcome(record: PhotoRecord, first: Effect, second: Effect, insertError: Option<string>)
    requires first.Store? && second.Store?
    ensures var h := InsertAndRevalidate(record, [first, second], insertError);
            && (h.response.status == 200 <==> insertError.None?)
            && h.response.status in {200, 500}
            && (h.response.status != 200 ==> NoRevalidation(h.effects))
  {
    var h := InsertAndRevalidate(record, [first, second], insertError);
    if insertError.Some? {
      assert h.effects == [first, second, Insert(record)];
    }
  }

  lemma StoresDoNotRevalidate(first: seq<StorageCall>, second: seq<StorageCall>)
    ensures NoRevalidation(StoreEffects(first))
    ensures NoRevalidation(StoreEffects(first) + StoreEffects(second))
  {
    var fx := StoreEffects(first) + StoreEffects(second);
    forall k | 0 <= k < |fx| ensures fx[k].Store? {
      if k >= |first| {
        assert fx[k] == StoreEffects(second)[k - |first|];
      }
    }
  }

  /** Both uploads succeeded: two stores, then the insert step for the built record. */
  lemma BothStored(form: UploadForm, file: FileInfo, exif: Option<Exif>, svc: Services)
    requires Validate(form) == Ok(file)
    requires UploadImage(file, PhotosBucket, svc.original).result.Ok?
    requires CreateThumbnail(file, svc.thumbnail).result.Ok?
    ensures var main := UploadImage(file, PhotosBucket, svc.original);
            var thumb := CreateThumbnail(file, svc.thumbnail);
            var record := BuildRecord(form, file, Dimensions(1920, 1080), main.result.value, thumb.result.value,
                                      exif, svc.uploadedAt);
            && |main.calls| == 1 && |thumb.calls| == 1
            && main.calls[0].bucket == PhotosBucket && thumb.calls[0].bucket == ThumbnailsBucket
            && StoreAndInsert(form, file, exif, svc) ==
                 InsertAndRevalidate(record, [Store(main.calls[0]), Store(thumb.calls[0])], svc.insertError)
  {
    var main := UploadImage(file, PhotosBucket, svc.original);
    var thumb := CreateThumbnail(file, svc.thumbnail);
    assert |main.calls| == 1 && |thumb.calls| == 1;
    assert thumb.calls[0] in thumb.calls;
    assert StoreEffects(main.calls) + StoreEffects(thumb.calls) == [Store(main.calls[0]), Store(thumb.calls[0])];
  }

  /** The effect log of a successful insert. */
  lemma SevenEffects(s1: Effect, s2: Effect, record: PhotoRecord)
    ensures var fx := [ReadDimensions, ReadExif] +
                      ([s1, s2] + [Insert(record)] + RevalidateEffects(Revalidation.DefaultPaths));
            |fx| == 7 && fx[2] == s1 && fx[3] == s2 && fx[4] == Insert(record) &&
            fx[5..] == [Revalidate("/"), Revalidate("/portfolio")]
  {
    var rv := RevalidateEffects(Revalidation.DefaultPaths);
    assert rv == [Revalidate("/"), Revalidate("/portfolio")];
  }

  /**
   * A successful upload answers the inserted record, which reflects the
   * form, carries the server-side placeholder dimensions, and is followed
   * by revalidation of the home and portfolio pages.
   */
  lemma SuccessfulUploadRecord(form: UploadForm, svc: Services)
    requires AllStepsSucceed(form, svc)
    ensures var h := Post(form, svc);
            h.response.status == 200 && h.response.body.PhotoBody? &&
            RecordReflectsForm(h.response.body.photo, form) &&
            h.response.body.photo.width == 1920 && h.response.body.photo.height == 1080 &&
            |h.effects| == 7 && h.effects[4] == Insert(h.response.body.photo) &&
            h.effects[5..] == [Revalidate("/"), Revalidate("/portfolio")]
  {
    var file := form.file.value;
    var exif := svc.exif.value;
    var main := UploadImage(file, PhotosBucket, svc.original);
    var thumb := CreateThumbnail(file, svc.thumbnail);
    var record := BuildRecord(form, file, Dimensions(1920, 1080), main.result.value, thumb.result.value,
                              exif, svc.uploadedAt);
    BothStored(form, file, exif, svc);
    SevenEffects(Store(main.calls[0]), Store(thumb.calls[0]), record);
  }

  /**
   * A failed insert answers 500 "Database error: ..." after both objects
   * were stored, and nothing after the insert attempt removes them.
   */
  lemma InsertErrorLeavesStoredObjects(form: UploadForm, svc: Services)
    requires Validate(form).Ok? && svc.exif.Ok?
    requires UploadImage(form.file.value, PhotosBucket, svc.original).result.Ok?
    requires CreateThumbnail(form.file.value, svc.thumbnail).result.Ok?
    requires svc.insertError.Some?
    ensures var h := Post(form, svc);
            h.response == Response(500, ErrorBody("Database error: " + svc.insertError.value)) &&
            |h.effects| == 5 && h.effects[2].Store? && h.effects[3].Store? &&
            h.effects[2].call.bucket == PhotosBucket && h.effects[3].call.bucket == ThumbnailsBucket &&
            h.effects[4].Insert?
  {
    var file := form.file.value;
    var exif := svc.exif.value;
    var main := UploadImage(file, PhotosBucket, svc.original);
    var thumb := CreateThumbnail(file, svc.thumbnail);
    var record := BuildRecord(form, file, Dimensions(1920, 1080), main.result.value, thumb.result.value,
                              exif, svc.uploadedAt);
    BothStored(form, file, exif, svc);
    FiveEffects(Store(main.calls[0]), Store(thumb.calls[0]), record, svc.insertError.value);
  }

  /** The effect log of a failed insert. */
  lemma FiveEffects(s1: Effect, s2: Effect, record: PhotoRecord, error: string)
    ensures var rest := InsertAndRevalidate(record, [s1, s2], Some(error));
            var fx := [ReadDimensions, ReadExif] + rest.effects;
            rest.response == Response(500, ErrorBody("Database error: " + error)) &&
            |fx| == 5 && fx[2] == s1 && fx[3] == s2 && fx[4] == Insert(record)
  {
  }

  /** Once the route's checks pass, the checks repeated inside uploadImage never reject. */
  lemma RouteChecksSubsumeUploadChecks(form: UploadForm, env: UploadEnv, bucket: string)
    requires Validate(form).Ok?
    ensures UploadImage(form.file.value, bucket, env).calls != []
    ensures UploadImage(form.file.value, bucket, env).result.Err? ==>
              env.uploadError.Some? || PublicUrlMissing(env)
  {
  }
}
