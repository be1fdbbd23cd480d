/**
 * The colour / black-and-white classifier of src/lib/image-analysis.ts.
 *
 * The browser draws the image onto a 100x100 canvas and reads back its RGBA
 * bytes; decoding and drawing are foreign and appear here only as the
 * outcome they deliver (a load error, no image data, a thrown read, or the
 * byte buffer). The scan itself is modelled as the source writes it: a loop
 * stepping by 16 bytes (every 4th pixel) with an early exit.
 */
module ImageAnalysis {
  import opened Wrappers

  type Byte = x: int | 0 <= x <= 255

  /** The canvas is `SampleSize` pixels square. */
  const SampleSize: nat := 100
  /** Bytes per RGBA pixel. */
  const Channels: nat := 4
  /** The scan reads every 4th pixel, i.e. every 16th byte. */
  const Stride: nat := 16
  /** A pixel is colourful when its channel spread is strictly above this. */
  const Threshold: int := 30
  /** Length of the buffer `getImageData(0, 0, 100, 100)` returns. */
  const SampleBufferLength: nat := SampleSize * SampleSize * Channels

  function Abs(x: int): nat { if x < 0 then -x else x }

  /** `Math.max(|r-g|, |g-b|, |r-b|)`. */
  function Spread(r: int, g: int, b: int): (d: nat)
    ensures d >= Abs(r - g) && d >= Abs(g - b) && d >= Abs(r - b)
    ensures d == Abs(r - g) || d == Abs(g - b) || d == Abs(r - b)
  {
    var a, c, e := Abs(r - g), Abs(g - b), Abs(r - b);
    if a >= c && a >= e then a else if c >= e then c else e
  }

  /** `data[k]`: a read past the end yields `undefined`. */
  function Read(data: seq<Byte>, k: nat): Option<int> {
    if k < |data| then Some(data[k]) else None
  }

  /** The spread of three reads; any `undefined` operand makes it NaN (None). */
  function SpreadOf(r: Option<int>, g: Option<int>, b: Option<int>): Option<nat> {
    if r.Some? && g.Some? && b.Some? then Some(Spread(r.value, g.value, b.value)) else None
  }

  /** `diff > 30`, which is false for NaN. */
  predicate Exceeds(diff: Option<nat>) {
    diff.Some? && diff.value > Threshold
  }

  /** The test the loop body applies at byte offset `i`. */
  predicate ColorAt(data: seq<Byte>, i: nat) {
    Exceeds(SpreadOf(Read(data, i), Read(data, i + 1), Read(data, i + 2)))
  }

  /** The pixel test in terms of the bytes: only R, G and B of an in-bounds pixel count. */
  lemma ColorAtMeans(data: seq<Byte>, i: nat)
    ensures ColorAt(data, i) <==> i + 2 < |data| && Spread(data[i], data[i + 1], data[i + 2]) > Threshold
  {
  }

  /** Some byte offset the scan visits (0, 16, 32, ... below the length) holds a colourful pixel. */
  ghost predicate HasColorSample(data: seq<Byte>) {
    exists i :: 0 <= i < |data| && i % Stride == 0 && ColorAt(data, i)
  }

  /**
   * The loop of lines 27-50: returns true at the first colourful sampled
   * pixel and false when none is found.
   */
  method ScanForColor(data: seq<Byte>) returns (isColor: bool)
    ensures isColor <==> HasColorSample(data)
  {
    isColor := false;
    var i := 0;
    while i < |data|
      invariant i % Stride == 0 && !isColor
      invariant forall j :: 0 <= j < i && j % Stride == 0 ==> !ColorAt(data, j)
      decreases |data| - i
    {
      var r, g, b := Read(data, i), Read(data, i + 1), Read(data, i + 2);
      var diff := SpreadOf(r, g, b);
      if Exceeds(diff) {
        assert ColorAt(data, i);
        isColor := true;
        break;
      }
      i := i + Stride;
    }
  }

  /** Number of colourful pixels among the samples at offsets from, from+16, ... */
  function ColorSampleCount(data: seq<Byte>, from: nat): nat
    decreases |data| - from
  {
    if from >= |data| then 0
    else (if ColorAt(data, from) then 1 else 0) + ColorSampleCount(data, from + Stride)
  }

  ghost predicate HasColorFrom(data: seq<Byte>, from: nat) {
    exists i :: from <= i < |data| && (i - from) % Stride == 0 && ColorAt(data, i)
  }

  lemma {:induction false} CountPositiveIffColorFrom(data: seq<Byte>, from: nat)
    ensures ColorSampleCount(data, from) > 0 <==> HasColorFrom(data, from)
    decreases |data| - from
  {
    if from < |data| {
      CountPositiveIffColorFrom(data, from + Stride);
      if HasColorFrom(data, from) && !ColorAt(data, from) {
        var i :| from <= i < |data| && (i - from) % Stride == 0 && ColorAt(data, i);
        NextSampleOffset(i, from);
        assert HasColorFrom(data, from + Stride);
      }
      if HasColorFrom(data, from + Stride) {
        var i :| from + Stride <= i < |data| && (i - (from + Stride)) % Stride == 0 && ColorAt(data, i);
        ShiftedOffset(i, from);
        assert HasColorFrom(data, from);
      }
    }
  }

  /** A sampled offset after `from` is also a sampled offset after `from + 16`. */
  lemma NextSampleOffset(i: int, from: int)
    requires from < i && (i - from) % Stride == 0
    ensures from + Stride <= i && (i - (from + Stride)) % Stride == 0
  {
  }

  lemma ShiftedOffset(i: int, from: int)
    requires (i - (from + Stride)) % Stride == 0
    ensures (i - from) % Stride == 0
  {
  }

  /**
   * Scanning every sample without the early exit gives the same verdict:
   * the buffer is colourful exactly when the number of colourful samples
   * is positive.
   */
  lemma EarlyExitAgreesWithFullScan(data: seq<Byte>)
    ensures HasColorSample(data) <==> ColorSampleCount(data, 0) > 0
  {
    CountPositiveIffColorFrom(data, 0);
    assert HasColorSample(data) <==> HasColorFrom(data, 0) by {
      forall i | 0 <= i ensures (i - 0) % Stride == i % Stride { }
    }
  }

  /** Two buffers of equal length that agree on R, G, B of every sampled pixel. */
  ghost predicate AgreeOnSampledChannels(a: seq<Byte>, b: seq<Byte>) {
    |a| == |b| && forall i :: 0 <= i < |a| && i % Stride < 3 ==> a[i] == b[i]
  }

  /** Only bytes 16k, 16k+1 and 16k+2 are read: the rest never change the count. */
  lemma {:induction false} OnlySampledChannelsMatter(a: seq<Byte>, b: seq<Byte>, from: nat)
    requires AgreeOnSampledChannels(a, b)
    requires from % Stride == 0
    ensures ColorSampleCount(a, from) == ColorSampleCount(b, from)
    decreases |a| - from
  {
    if from < |a| {
      if from + 1 < |a| { assert (from + 1) % Stride == 1; }
      if from + 2 < |a| { assert (from + 2) % Stride == 2; }
      assert ColorAt(a, from) == ColorAt(b, from);
      OnlySampledChannelsMatter(a, b, from + Stride);
    }
  }

  /** Consequently the classifier gives the same answer on both buffers. */
  lemma SameVerdictOnSampledAgreement(a: seq<Byte>, b: seq<Byte>)
    requires AgreeOnSampledChannels(a, b)
    ensures HasColorSample(a) <==> HasColorSample(b)
  {
    OnlySampledChannelsMatter(a, b, 0);
    EarlyExitAgreesWithFullScan(a);
    EarlyExitAgreesWithFullScan(b);
  }

  /** Every inspected pixel has r = g = b. */
  ghost predicate GreyAtSamples(data: seq<Byte>) {
    forall i :: 0 <= i && i + 2 < |data| && i % Stride == 0 ==> data[i] == data[i + 1] == data[i + 2]
  }

  /** An image that is grey at every inspected pixel is classified black and white. */
  lemma GreyBufferIsMonochrome(data: seq<Byte>)
    requires GreyAtSamples(data)
    ensures !HasColorSample(data)
  {
    forall i | 0 <= i < |data| && i % Stride == 0 ensures !ColorAt(data, i) {
      ColorAtMeans(data, i);
    }
  }

  /** The threshold is strict: a spread of exactly 30 is monochrome, 31 is colour. */
  lemma ThresholdIsStrict()
    ensures !ColorAt([0, 30, 30, 255], 0)
    ensures ColorAt([0, 31, 31, 255], 0)
  {
  }

  /** With the 100x100 sample every read at i + 2 of a visited offset i is in bounds. */
  lemma SampleBufferReadsInBounds(i: nat)
    requires i < SampleBufferLength && i % Stride == 0
    ensures SampleBufferLength == 40000
    ensures i + 2 < SampleBufferLength
  {
  }

  /** What the canvas read at lines 19-26 delivered. */
  datatype CanvasRead =
    | NoImageData           // no 2D context, so `imageData` is undefined
    | ReadThrew             // `getImageData` threw (caught at line 51)
    | ImageData(data: seq<Byte>)

  /** The image either failed to load (`onerror`) or loaded and was read. */
  datatype ImageLoad = LoadError | Loaded(read: CanvasRead)

  /**
   * `detectImageColorMode`: every path that cannot analyse the image
   * resolves to colour (true); otherwise the scan decides.
   */
  method DetectImageColorMode(load: ImageLoad) returns (isColor: bool)
    ensures !(load.Loaded? && load.read.ImageData?) ==> isColor
    ensures load.Loaded? && load.read.ImageData? ==> (isColor <==> HasColorSample(load.read.data))
  {
    match load {
      case LoadError => isColor := true;
      case Loaded(read) =>
        match read {
          case NoImageData => isColor := true;
          case ReadThrew => isColor := true;
          case ImageData(data) => isColor := ScanForColor(data);
        }
    }
  }

  /** `detectImageColorModeServer` is a placeholder that always answers colour. */
  function DetectImageColorModeServer(buffer: seq<Byte>): (isColor: bool)
    ensures isColor
  {
    true
  }
}
