/**
 * The two acceptance checks for a standby image. The node sees the first MiB of the file and its
 * size; the control plane sees the whole file. The control plane's limits exist "so processing
 * agrees" with the node, and this module says exactly when it does.
 */
module Images {
  import opened Prelude
  import opened Bytes
  import opened Png
  import opened Jpeg
  import opened WebP

  const MAX_BYTES := 32 * 1024 * 1024
  const MAX_HEADER := 1024 * 1024
  const MAX_PIXELS := 16 * 1024 * 1024
  const MAX_DIMENSION := 16_384

  datatype ImageError =
    | BadSize | UnsupportedType | NoDimensions | NotPositive | TooLarge | TooManyPixels

  datatype ContentType = PngImage | JpegImage | WebpImage

  datatype Blob = Blob(contentType: ContentType, width: nat, height: nat, size: nat)

  predicate IsPng(payload: seq<Byte>) { SIGNATURE <= payload }

  predicate IsJpeg(payload: seq<Byte>) { SOI <= payload }

  /** `payload[a:b]` clips at the end of the payload. */
  function Slice(payload: seq<Byte>, a: nat, b: nat): seq<Byte>
    requires a <= b
  {
    payload[Min(a, |payload|)..Min(b, |payload|)]
  }

  predicate IsWebp(payload: seq<Byte>) {
    Slice(payload, 0, 4) == RIFF && Slice(payload, 8, 12) == WEBP
  }

  // ----- Node -----

  function SupportedDimensions(payload: seq<Byte>, fileSize: nat): Option<Dimensions> {
    if IsPng(payload) then Png.NodeDimensions(payload)
    else if IsJpeg(payload) then Dims(Walk(payload))
    else if IsWebp(payload) then WebpDimensions(payload, fileSize)
    else None
  }

  predicate DimensionsAreSafe(d: Dimensions) {
    if d.width <= 0 || d.height <= 0 then false
    else if d.width > MAX_DIMENSION || d.height > MAX_DIMENSION then false
    else d.width <= MAX_PIXELS / d.height
  }

  /** The prefix that the node keeps while it copies a file. */
  function HeaderPrefix(file: seq<Byte>): seq<Byte> {
    file[..Min(|file|, MAX_HEADER)]
  }

  /** The node's verdict on a file: the dimensions it selects, if it selects the file. */
  function NodeAccepts(file: seq<Byte>): Option<Dimensions> {
    if |file| <= 0 || |file| > MAX_BYTES then None
    else
      var d := SupportedDimensions(HeaderPrefix(file), |file|);
      if d.None? || !DimensionsAreSafe(d.value) then None else d
  }

  // ----- Control plane -----

  function ImageDimensions(payload: seq<Byte>): Option<Dimensions> {
    if |payload| > MAX_BYTES then None
    else if IsPng(payload) then Png.ControlDimensions(payload)
    else if IsJpeg(payload) then Dims(Walk(payload))
    else if IsWebp(payload) then WebpDimensions(payload, |payload|)
    else None
  }

  function ContentTypeOf(data: seq<Byte>): Option<ContentType> {
    if IsPng(data) then Some(PngImage)
    else if IsJpeg(data) then Some(JpegImage)
    else if IsWebp(data) then Some(WebpImage)
    else None
  }

  function NormalizeBlob(data: seq<Byte>): Result<Blob, ImageError> {
    if data == [] || |data| > MAX_BYTES then Err(BadSize)
    else if ContentTypeOf(data).None? then Err(UnsupportedType)
    else
      var dimensions := ImageDimensions(data);
      if dimensions.None? then Err(NoDimensions)
      else
        var (width, height) := (dimensions.value.width, dimensions.value.height);
        if width <= 0 || height <= 0 then Err(NotPositive)
        else if width > MAX_DIMENSION || height > MAX_DIMENSION then Err(TooLarge)
        else if width > MAX_PIXELS / height then Err(TooManyPixels)
        else Ok(Blob(ContentTypeOf(data).value, width, height, |data|))
  }

  function BlobDimensions(r: Result<Blob, ImageError>): Option<Dimensions> {
    if r.Ok? then Some(Dimensions(r.value.width, r.value.height)) else None
  }

  // ----- The pixel limit -----

  /** The division in the checks is the pixel count limit. */
  lemma {:induction false} SafeMeansBounded(d: Dimensions)
    ensures DimensionsAreSafe(d) <==>
            && 0 < d.width <= MAX_DIMENSION && 0 < d.height <= MAX_DIMENSION
            && d.width * d.height <= MAX_PIXELS
  {
    if d.height > 0 {
      var q, r := MAX_PIXELS / d.height, MAX_PIXELS % d.height;
      assert MAX_PIXELS == q * d.height + r && r < d.height;
      if d.width <= q {
        Monotone(d.width, q, d.height);
      } else {
        Monotone(q + 1, d.width, d.height);
        assert (q + 1) * d.height == q * d.height + d.height;
      }
    }
  }

  lemma {:induction false} Monotone(a: nat, b: nat, c: nat)
    requires a <= b
    ensures a * c <= b * c
  {
  }

  // ----- Agreement -----

  /** What an accepted blob says of the bytes: their type by signature, their length and their safe dimensions. */
  lemma {:induction false} AcceptedBlobIsTrue(data: seq<Byte>)
    requires NormalizeBlob(data).Ok?
    ensures var b := NormalizeBlob(data).value;
            && b.size == |data| && 0 < b.size <= MAX_BYTES
            && (b.contentType == PngImage <==> IsPng(data)) && (b.contentType == JpegImage <==> IsJpeg(data))
            && (b.contentType == WebpImage <==> IsWebp(data))
            && ImageDimensions(data) == Some(Dimensions(b.width, b.height))
            && b.width * b.height <= MAX_PIXELS && 0 < b.width <= MAX_DIMENSION && 0 < b.height <= MAX_DIMENSION
  {
    var b := NormalizeBlob(data).value;
    SafeMeansBounded(Dimensions(b.width, b.height));
    if IsPng(data) {
      SignaturesDiffer(data);
    }
    assert IsWebp(data) ==> Slice(data, 0, 4)[0] == 0x52;
  }

  /** Where the frame header of a JPEG ends, if the walk reaches one. */
  function FrameEnd(file: seq<Byte>): nat {
    if IsJpeg(file) && Walk(file).Some? then Walk(file).value.used else 0
  }

  lemma {:induction false} PrefixTest(a: seq<Byte>, s: seq<Byte>)
    requires |a| <= |s|
    ensures a <= s <==> s[..|a|] == a
  {
  }

  lemma {:induction false} PngOfPrefix(file: seq<Byte>, m: nat)
    requires 33 <= m <= |file|
    ensures Png.ControlDimensions(file[..m]) == Png.ControlDimensions(file)
  {
    var p := file[..m];
    assert p[..8] == file[..8];
    PrefixTest(SIGNATURE, p);
    PrefixTest(SIGNATURE, file);
    SliceOfPrefix(file, m, 8, 12);
    SliceOfPrefix(file, m, 12, 16);
    SliceOfPrefix(file, m, 16, 29);
    SliceOfPrefix(file, m, 29, 33);
  }

  lemma {:induction false} KindOfPrefix(file: seq<Byte>, m: nat)
    requires m <= |file| && (m >= 33 || m == |file|)
    ensures IsPng(file[..m]) == IsPng(file) && IsJpeg(file[..m]) == IsJpeg(file) && IsWebp(file[..m]) == IsWebp(file)
  {
    if m == |file| {
      assert file[..m] == file;
    } else {
      var p := file[..m];
      assert p[..8] == file[..8] && p[..2] == file[..2];
      SliceOfPrefix(file, m, 0, 4);
      SliceOfPrefix(file, m, 8, 12);
      assert Slice(p, 0, 4) == p[0..4] && Slice(p, 8, 12) == p[8..12];
      assert Slice(file, 0, 4) == file[0..4] && Slice(file, 8, 12) == file[8..12];
      PrefixTest(SIGNATURE, p);
      PrefixTest(SIGNATURE, file);
      PrefixTest(SOI, p);
      PrefixTest(SOI, file);
    }
  }

  /** The parsers agree on the prefix and on the file, up to a frame header beyond the prefix. */
  lemma {:induction false} DimensionsOfPrefix(file: seq<Byte>)
    requires 0 < |file| <= MAX_BYTES
    ensures SupportedDimensions(HeaderPrefix(file), |file|)
         == if !IsPng(file) && FrameEnd(file) > MAX_HEADER then None else ImageDimensions(file)
  {
    var m := Min(|file|, MAX_HEADER);
    var p := HeaderPrefix(file);
    KindOfPrefix(file, m);
    ParsersAgree(p);
    if m == |file| {
      assert p == file;
      if IsJpeg(file) {
        WalkOfPrefix(file, m);
      }
    } else {
      PngOfPrefix(file, m);
      WebpOfPrefix(file, m);
      WalkOfPrefix(file, m);
    }
  }

  lemma {:induction false} SignaturesDiffer(file: seq<Byte>)
    requires IsPng(file)
    ensures !IsJpeg(file) && FrameEnd(file) == 0
  {
    assert SIGNATURE[0] == file[0];
    PrefixTest(SOI, file);
  }

  /**
   * Exact agreement: the node accepts a file with dimensions d if and only if the control plane
   * accepts it with the same dimensions and its JPEG frame header, if it has one, ends within the
   * first MiB.
   */
  lemma {:induction false} NodeAgreesWithControlPlane(file: seq<Byte>, d: Dimensions)
    ensures NodeAccepts(file) == Some(d) <==>
            BlobDimensions(NormalizeBlob(file)) == Some(d) && FrameEnd(file) <= MAX_HEADER
  {
    if 0 < |file| <= MAX_BYTES {
      DimensionsOfPrefix(file);
      if IsPng(file) {
        SignaturesDiffer(file);
      }
    }
  }

  // ----- Which blobs are accepted -----

  /** The bytes are an image of this type and size, in the terms of its format. */
  ghost predicate Shows(t: ContentType, data: seq<Byte>, d: Dimensions) {
    match t
    case PngImage => StartsWithHeader(data, d)
    case JpegImage => SOI <= data && exists n :: Encodes(data[2..], Found(d.width, d.height, n))
    case WebpImage => exists size, b :: Carries(data, size, b) && SizeOf(b) == d
  }

  lemma {:induction false} PngShows(data: seq<Byte>, d: Dimensions)
    requires |data| <= MAX_BYTES
    ensures Shows(PngImage, data, d) <==> IsPng(data) && ImageDimensions(data) == Some(d)
  {
    ParserIsExact(data, d);
  }

  lemma {:induction false} JpegShows(data: seq<Byte>, d: Dimensions)
    requires |data| <= MAX_BYTES
    ensures Shows(JpegImage, data, d) <==> IsJpeg(data) && ImageDimensions(data) == Some(d)
  {
    if IsPng(data) {
      SignaturesDiffer(data);
    }
    if IsJpeg(data) && Walk(data).Some? {
      WalkIsExact(data, Walk(data).value.width, Walk(data).value.height, Walk(data).value.used - 2);
    }
    if Shows(JpegImage, data, d) {
      var n :| Encodes(data[2..], Found(d.width, d.height, n));
      WalkIsExact(data, d.width, d.height, n);
    }
  }

  lemma {:induction false} WebpShows(data: seq<Byte>, d: Dimensions)
    requires |data| <= MAX_BYTES
    ensures Shows(WebpImage, data, d) <==> IsWebp(data) && ImageDimensions(data) == Some(d)
  {
    WebpIsExact(data, d);
    if IsWebp(data) || WebpDimensions(data, |data|).Some? {
      WebpIsNoOther(data);
    }
  }

  lemma {:induction false} PrefixStart(a: seq<Byte>, s: seq<Byte>)
    requires a != [] && s != []
    ensures a <= s ==> s[0] == a[0]
  {
  }

  lemma {:induction false} WebpIsNoOther(data: seq<Byte>)
    requires IsWebp(data) || WebpDimensions(data, |data|).Some?
    ensures IsWebp(data) && !IsPng(data) && !IsJpeg(data)
  {
    assert Slice(data, 0, 4) == RIFF;
    assert data[0] == Slice(data, 0, 4)[0] == 0x52;
    PrefixStart(SIGNATURE, data);
    PrefixStart(SOI, data);
  }

  lemma {:induction false} OneFormat(t: ContentType, data: seq<Byte>, d: Dimensions)
    requires |data| <= MAX_BYTES
    ensures Shows(t, data, d) <==> ContentTypeOf(data) == Some(t) && ImageDimensions(data) == Some(d)
  {
    if IsPng(data) {
      SignaturesDiffer(data);
    }
    if IsWebp(data) {
      WebpIsNoOther(data);
    }
    match t
    case PngImage => PngShows(data, d);
    case JpegImage => JpegShows(data, d);
    case WebpImage => WebpShows(data, d);
  }

  lemma {:induction false} BlobParts(data: seq<Byte>, b: Blob)
    ensures NormalizeBlob(data) == Ok(b) <==>
            && b.size == |data| && 0 < b.size <= MAX_BYTES
            && ContentTypeOf(data) == Some(b.contentType)
            && ImageDimensions(data) == Some(Dimensions(b.width, b.height))
            && DimensionsAreSafe(Dimensions(b.width, b.height))
  {
  }

  /**
   * The control plane accepts a blob exactly when the bytes are a PNG, JPEG or WebP image of that size, in the
   * terms of the format, within the limits on bytes, sides and pixels.
   */
  lemma {:induction false} BlobIsExact(data: seq<Byte>, b: Blob)
    ensures NormalizeBlob(data) == Ok(b) <==>
            && b.size == |data| && 0 < b.size <= MAX_BYTES
            && Shows(b.contentType, data, Dimensions(b.width, b.height))
            && 0 < b.width <= MAX_DIMENSION && 0 < b.height <= MAX_DIMENSION && b.width * b.height <= MAX_PIXELS
  {
    SafeMeansBounded(Dimensions(b.width, b.height));
    BlobParts(data, b);
    if |data| <= MAX_BYTES {
      OneFormat(b.contentType, data, Dimensions(b.width, b.height));
    }
  }

  // ----- Where they disagree -----

  /** A JPEG with application segments in front of its frame header. */
  function PaddedItems(n: nat, body: seq<Byte>): (items: seq<Item>)
    ensures |items| == n
  {
    seq(n, i => Segment(0, 0xE0, body))
  }

  lemma {:induction false} PaddedLength(n: nat, body: seq<Byte>)
    requires |body| + 2 < 0x1_0000
    ensures ValidItems(PaddedItems(n, body))
    ensures |EncodeItems(PaddedItems(n, body))| == n * (|body| + 4)
  {
    var items := PaddedItems(n, body);
    if n > 0 {
      PaddedLength(n - 1, body);
      assert items[1..] == PaddedItems(n - 1, body);
      assert |EncodeItem(items[0])| == |body| + 4;
      OneMore(n, |body| + 4);
    }
  }

  lemma {:induction false} OneMore(n: nat, k: nat)
    requires n > 0
    ensures n * k == k + (n - 1) * k
  {
  }

  /**
   * The agreement is not unconditional: seventeen full application segments in front of the
   * frame header push it past the first MiB, and the node falls back on a file that the control
   * plane accepted.
   */
  lemma {:induction false} LateFrameHeaderIsRefused() returns (file: seq<Byte>)
    ensures NodeAccepts(file) == None
    ensures NormalizeBlob(file) == Ok(Blob(JpegImage, 640, 480, |file|))
  {
    var f := Frame(0, 0xC0, 8, 480, 640, [1, 0x11, 0]);
    file := PaddedFile(17, Fill(0xFFFD), f);
    LateVerdicts(file);
  }

  /** A JPEG whose frame header follows `n` application segments. */
  lemma {:induction false} PaddedFile(n: nat, body: seq<Byte>, f: Frame) returns (file: seq<Byte>)
    requires |body| + 2 < 0x1_0000 && ValidFrame(f)
    ensures SOI <= file && |file| == 2 + n * (|body| + 4) + |EncodeFrame(f)|
    ensures Walk(file) == Some(Found(f.width, f.height, |file|))
  {
    var items := PaddedItems(n, body);
    PaddedLength(n, body);
    var front := EncodeItems(items) + EncodeFrame(f);
    file := SOI + front;
    assert file[2..] == front && front + [] == front;
    ScanItems(items, f, []);
    assert |EncodeFrame(f)| == |Marker(f.fill, f.marker)| + |FrameBody(f)|;
  }

  lemma {:induction false} LateVerdicts(file: seq<Byte>)
    requires SOI <= file && MAX_HEADER < |file| <= MAX_BYTES
    requires Walk(file).Some? && Walk(file).value.used > MAX_HEADER && Dims(Walk(file)) == Some(Dimensions(640, 480))
    ensures NodeAccepts(file) == None
    ensures NormalizeBlob(file) == Ok(Blob(JpegImage, 640, 480, |file|))
  {
    if IsPng(file) {
      SignaturesDiffer(file);
    }
    SafeMeansBounded(Dimensions(640, 480));
    if NodeAccepts(file) != None {
      NodeAgreesWithControlPlane(file, NodeAccepts(file).value);
    }
  }
}
