/**
 * Storage constants, filename generation and the upload steps of
 * src/lib/storage.ts. The clock, the random token, the current year and
 * the storage service's answers are parameters; every storage call the
 * model makes is returned in a call log so that "no call before a
 * rejection" can be stated.
 */
module Storage {
  import opened Wrappers
  import opened Text

  const PhotosBucket: string := "photos"
  const ThumbnailsBucket: string := "thumbnails"
  /** 10 * 1024 * 1024 bytes. */
  const MaxFileSize: nat := 10485760
  const AllowedImageTypes: seq<string> := ["image/jpeg", "image/jpg", "image/png", "image/webp"]

  const InvalidTypeMessage: string := "Invalid file type. Allowed types: image/jpeg, image/jpg, image/png, image/webp."
  const UploadTooLargeMessage: string := "File size exceeds 10MB limit."
  const UnknownError: string := "Unknown error"

  /** The parts of a `File` the model uses. */
  datatype FileInfo = FileInfo(name: string, mimeType: string, size: nat)

  predicate IsAllowedType(mimeType: string) {
    mimeType in AllowedImageTypes
  }

  lemma AllowedTypesAreExactlyFour(mimeType: string)
    ensures IsAllowedType(mimeType) <==>
      mimeType == "image/jpeg" || mimeType == "image/jpg" || mimeType == "image/png" || mimeType == "image/webp"
    ensures MaxFileSize == 10 * 1024 * 1024
  {
  }

  datatype Dimensions = Dimensions(width: nat, height: nat)

  /** What the browser's `Image` element reports, or None when `onerror` fires. */
  type BrowserDecode = Option<Dimensions>

  const ServerFallbackDimensions: Dimensions := Dimensions(1920, 1080)
  const DimensionsLoadError: string := "Failed to load image to determine dimensions."

  /** `getImageDimensions`: on the server a fixed placeholder, in the browser the decoded size. */
  function GetImageDimensions(onServer: bool, decode: BrowserDecode): (r: Result<Dimensions, string>)
    ensures onServer ==> r == Ok(Dimensions(1920, 1080))
    ensures !onServer && decode.Some? ==> r == Ok(decode.value)
    ensures !onServer && decode.None? ==> r == Err(DimensionsLoadError)
  {
    if onServer then Ok(ServerFallbackDimensions)
    else if decode.Some? then Ok(decode.value)
    else Err(DimensionsLoadError)
  }

  /** `s.split('.').pop()`: the text after the last '.', or all of `s` when it has none. */
  function LastSegment(s: string): (r: string)
    ensures |r| <= |s| && r == s[|s| - |r|..]
    ensures '.' !in r
    ensures |r| < |s| ==> s[|s| - |r| - 1] == '.'
  {
    if s == [] then []
    else if s[|s| - 1] == '.' then []
    else
      var r := LastSegment(s[..|s| - 1]);
      assert s[..|s| - 1][|s| - 1 - |r|..] == s[|s| - 1 - |r|..|s| - 1];
      r + [s[|s| - 1]]
  }

  /** The extension of lines 90-95: lower-cased last segment, or "jpg" when that is empty. */
  function FileExtension(name: string): (ext: string)
    ensures ext != "" && '.' !in ext
    ensures LastSegment(name) != "" ==> ext == Lower(LastSegment(name))
    ensures LastSegment(name) == "" ==> ext == "jpg"
  {
    var seg := Lower(LastSegment(name));
    assert '.' !in seg by {
      forall i | 0 <= i < |seg| ensures seg[i] != '.' {
        assert LastSegment(name)[i] != '.';
      }
    }
    if seg == "" then "jpg" else seg
  }

  /** A name without '.' contributes all of itself, lower-cased. */
  lemma ExtensionOfDotlessName(name: string)
    requires '.' !in name && name != ""
    ensures FileExtension(name) == Lower(name)
  {
  }

  /** A name ending in '.' (or the empty name) gets the default extension. */
  lemma ExtensionOfTrailingDot(name: string)
    requires name == "" || name[|name| - 1] == '.'
    ensures FileExtension(name) == "jpg"
  {
  }

  /** Only the last segment counts, and it is lower-cased. */
  lemma ExtensionExamples()
    ensures FileExtension("IMG.JPG") == "jpg"
    ensures FileExtension("a.b.PNG") == "png"
  {
    LastSegmentAfterDot("IMG", "JPG");
    assert "IMG" + "." + "JPG" == "IMG.JPG";
    assert Lower("JPG") == "jpg";
    LastSegmentAfterDot("a.b", "PNG");
    assert "a.b" + "." + "PNG" == "a.b.PNG";
    assert Lower("PNG") == "png";
  }

  /** `${timestamp}-${random}.${extension}`. */
  function GenerateStorageFilename(originalName: string, timestamp: nat, random: string): string
  {
    NatToDecimal(timestamp) + "-" + random + "." + FileExtension(originalName)
  }

  /** `f` is `ts`, a '-', `random`, a '.', and `ext`, and its text after the last '.' is `ext`. */
  predicate NameShape(f: string, ts: string, random: string, ext: string) {
    && |f| == |ts| + 1 + |random| + 1 + |ext|
    && f[..|ts| + 1] == ts + "-"
    && f[|ts| + 1..|ts| + 1 + |random|] == random
    && f[|f| - |ext| - 1] == '.'
    && f[|f| - |ext|..] == ext
    && LastSegment(f) == ext
  }

  /**
   * The generated name is the timestamp's digits, a '-', the random part, a
   * '.', and the extension, and its text after the last '.' is that extension.
   */
  lemma FilenameShape(originalName: string, timestamp: nat, random: string)
    ensures NameShape(GenerateStorageFilename(originalName, timestamp, random),
                      NatToDecimal(timestamp), random, FileExtension(originalName))
  {
    PiecesOfName(GenerateStorageFilename(originalName, timestamp, random),
                 NatToDecimal(timestamp), random, FileExtension(originalName));
  }

  lemma PiecesOfName(f: string, ts: string, random: string, ext: string)
    requires f == ts + "-" + random + "." + ext && '.' !in ext
    ensures NameShape(f, ts, random, ext)
  {
    assert f == (ts + "-" + random) + "." + ext;
    LastSegmentAfterDot(ts + "-" + random, ext);
    assert f[|f| - |ext|..] == ext;
    assert f[..|ts| + 1] == ts + "-";
    assert f[|ts| + 1..|ts| + 1 + |random|] == random;
  }

  lemma {:induction false} LastSegmentAfterDot(head: string, tail: string)
    requires '.' !in tail
    ensures LastSegment(head + "." + tail) == tail
    decreases |tail|
  {
    if tail == [] {
      assert (head + "." + tail)[|head + "." + tail| - 1] == '.';
    } else {
      var s := head + "." + tail;
      assert s[..|s| - 1] == head + "." + tail[..|tail| - 1];
      LastSegmentAfterDot(head, tail[..|tail| - 1]);
      assert s[|s| - 1] == tail[|tail| - 1];
      assert tail == tail[..|tail| - 1] + [tail[|tail| - 1]];
    }
  }

  /** `${new Date().getFullYear()}/${filename}`: the year's digits, then the first '/', then the name. */
  function StoragePath(year: nat, filename: string): (p: string)
    ensures var y := NatToDecimal(year);
            && |p| == |y| + 1 + |filename|
            && p[..|y|] == y && p[|y|] == '/' && p[|y| + 1..] == filename
            && forall i :: 0 <= i < |y| ==> IsDigit(p[i])
  {
    NatToDecimal(year) + "/" + filename
  }

  /** One write to object storage. */
  datatype StorageCall = Put(bucket: string, path: string, file: FileInfo)

  /** The foreign inputs of one `uploadImage` call. */
  datatype UploadEnv = UploadEnv(
    year: nat,                   // new Date().getFullYear()
    timestamp: nat,              // Date.now()
    random: string,              // Math.random().toString(36).substring(2, 9)
    uploadError: Option<string>, // message of the storage upload error, if any
    urlError: Option<string>,    // message of the getPublicUrl error, if any
    publicUrl: Option<string>)   // urlData.publicUrl

  datatype Uploaded = Uploaded(path: string, publicUrl: string)

  /** What an upload returns (or throws) and the storage calls it made. */
  datatype UploadRun = UploadRun(result: Result<Uploaded, string>, calls: seq<StorageCall>)

  predicate PassesUploadChecks(file: FileInfo) {
    IsAllowedType(file.mimeType) && file.size <= MaxFileSize
  }

  function UploadPathFor(file: FileInfo, env: UploadEnv): string {
    StoragePath(env.year, GenerateStorageFilename(file.name, env.timestamp, env.random))
  }

  predicate PublicUrlMissing(env: UploadEnv) {
    env.urlError.Some? || env.publicUrl.None? || env.publicUrl.value == ""
  }

  /**
   * `uploadImage(file, bucket)`: the type check, then the size check, both
   * before any storage call; then one upload to `${year}/${filename}`; a
   * missing public URL fails after the object is stored and leaves it there.
   */
  function UploadImage(file: FileInfo, bucket: string, env: UploadEnv): (run: UploadRun)
    ensures !IsAllowedType(file.mimeType) ==> run == UploadRun(Err(InvalidTypeMessage), [])
    ensures IsAllowedType(file.mimeType) && file.size > MaxFileSize ==>
              run == UploadRun(Err(UploadTooLargeMessage), [])
    ensures file.size == MaxFileSize && IsAllowedType(file.mimeType) ==> run.calls != []
    ensures run.calls != [] <==> PassesUploadChecks(file)
    ensures run.calls != [] ==> run.calls == [Put(bucket, UploadPathFor(file, env), file)]
    ensures run.result.Ok? <==> PassesUploadChecks(file) && env.uploadError.None? && !PublicUrlMissing(env)
    ensures run.result.Ok? ==> run.result.value == Uploaded(UploadPathFor(file, env), env.publicUrl.value)
    ensures PassesUploadChecks(file) && env.uploadError.None? && PublicUrlMissing(env) ==>
              run.result.Err? && run.calls == [Put(bucket, UploadPathFor(file, env), file)]
  {
    if !IsAllowedType(file.mimeType) then UploadRun(Err(InvalidTypeMessage), [])
    else if file.size > MaxFileSize then UploadRun(Err(UploadTooLargeMessage), [])
    else
      var path := UploadPathFor(file, env);
      var calls := [Put(bucket, path, file)];
      if env.uploadError.Some? then UploadRun(Err("Upload failed: " + env.uploadError.value), calls)
      else if PublicUrlMissing(env) then
        var detail := if env.urlError.Some? && env.urlError.value != "" then env.urlError.value else UnknownError;
        UploadRun(Err("File uploaded, but failed to get public URL: " + detail), calls)
      else UploadRun(Ok(Uploaded(path, env.publicUrl.value)), calls)
  }

  /**
   * `createThumbnail`: the original bytes uploaded into the thumbnails
   * bucket, with the same checks and outcome as an upload into photos.
   */
  function CreateThumbnail(file: FileInfo, env: UploadEnv): (run: UploadRun)
    ensures run.result == UploadImage(file, PhotosBucket, env).result
    ensures forall c :: c in run.calls ==> c.bucket == ThumbnailsBucket && c.file == file
    ensures |run.calls| == |UploadImage(file, PhotosBucket, env).calls|
    ensures run.calls != [] ==> run.calls == [Put(ThumbnailsBucket, UploadPathFor(file, env), file)]
  {
    UploadImage(file, ThumbnailsBucket, env)
  }
}
