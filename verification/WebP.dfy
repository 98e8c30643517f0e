/** The WebP header parser, which both programs share line by line (RFC 9649). */
module WebP {
  import opened Prelude
  import opened Bytes
  import opened Png

  const RIFF: seq<Byte> := [0x52, 0x49, 0x46, 0x46]
  const WEBP: seq<Byte> := [0x57, 0x45, 0x42, 0x50]
  const VP8X: seq<Byte> := [0x56, 0x50, 0x38, 0x58]
  const VP8L: seq<Byte> := [0x56, 0x50, 0x38, 0x4C]
  const VP8_: seq<Byte> := [0x56, 0x50, 0x38, 0x20]
  const VP8_START: seq<Byte> := [0x9D, 0x01, 0x2A]

  /** The width and height of a lossless bitstream from the four bytes behind its signature. */
  function LosslessSize(b: seq<Byte>): Dimensions
    requires |b| == 4
  {
    Dimensions(
      1 + b[0] + ShiftLeft(BitAnd(b[1], 0x3F), 8),
      1 + ShiftRight(BitAnd(b[1], 0xC0), 6) + ShiftLeft(b[2], 2) + ShiftLeft(BitAnd(b[3], 0x0F), 10))
  }

  function WebpDimensions(payload: seq<Byte>, fileSize: nat): Option<Dimensions> {
    if |payload| < 20 || payload[..4] != RIFF || payload[8..12] != WEBP then None
    else if LittleEndian(payload[4..8]) + 8 != fileSize then None
    else
      var kind := payload[12..16];
      var size := LittleEndian(payload[16..20]);
      var padded := size + BitAnd(size, 1);
      if 20 + padded > fileSize then None
      else if kind == VP8X then
        if size != 10 || |payload| < 30 then None
        else Some(Dimensions(1 + LittleEndian(payload[24..27]), 1 + LittleEndian(payload[27..30])))
      else if kind == VP8L then
        if size < 5 || |payload| < 25 || payload[20] != 0x2F then None
        else Some(LosslessSize(payload[21..25]))
      else if kind == VP8_ then
        if size < 10 || |payload| < 30 || payload[23..26] != VP8_START then None
        else Some(Dimensions(BitAnd(LittleEndian(payload[26..28]), 0x3FFF), BitAnd(LittleEndian(payload[28..30]), 0x3FFF)))
      else None
  }

  /**
   * The shifts and masks read the two 14-bit fields of the little-endian word (section 3.4 of
   * RFC 9649): width - 1 in bits 0 to 13 and height - 1 in bits 14 to 27.
   */
  lemma {:induction false} LosslessFields(b: seq<Byte>)
    requires |b| == 4
    ensures var word := LittleEndian(b);
            LosslessSize(b) == Dimensions(1 + word % 0x4000, 1 + word / 0x4000 % 0x4000)
  {
    Word(b);
    LosslessParts(b);
    Fields(b[0], b[1], b[2], b[3]);
  }

  lemma {:induction false} LosslessParts(b: seq<Byte>)
    requires |b| == 4
    ensures LosslessSize(b) == Dimensions(1 + b[0] as int + 256 * (b[1] as int % 64),
                                          1 + b[1] as int / 64 + 4 * (b[2] as int) + 1024 * (b[3] as int % 16))
  {
    PowersOfTwo();
    MaskIsRemainder(b[1], 6);
    MaskIsRemainder(b[3], 4);
    HighBits(b[1]);
  }

  lemma {:induction false} Word(b: seq<Byte>)
    requires |b| == 4
    ensures LittleEndian(b) == b[0] as int + 256 * (b[1] as int + 256 * (b[2] as int + 256 * (b[3] as int)))
  {
    assert LittleEndian(b[1..]) == b[1] as int + 256 * LittleEndian(b[1..][1..]);
    assert b[1..][1..] == b[2..];
    assert LittleEndian(b[2..]) == b[2] as int + 256 * LittleEndian(b[2..][1..]);
    assert b[2..][1..] == b[3..];
    assert LittleEndian(b[3..]) == b[3] as int + 256 * LittleEndian(b[3..][1..]);
    assert b[3..][1..] == [];
  }

  lemma {:induction false} Fields(b0: nat, b1: nat, b2: nat, b3: nat)
    requires b0 < 256 && b1 < 256 && b2 < 256 && b3 < 256
    ensures var word := b0 + 256 * (b1 + 256 * (b2 + 256 * b3));
            && word % 0x4000 == b0 + 256 * (b1 % 64)
            && word / 0x4000 % 0x4000 == b1 / 64 + 4 * b2 + 1024 * (b3 % 16)
  {
    var low, high := b0 + 256 * (b1 % 64), b1 / 64 + 4 * b2 + 1024 * b3;
    RemainderUnique(b0 + 256 * (b1 + 256 * (b2 + 256 * b3)), 0x4000, high, low);
    RemainderUnique(high, 0x4000, b3 / 16, b1 / 64 + 4 * b2 + 1024 * (b3 % 16));
  }

  /** Seeing only a prefix of at least 30 bytes, or the whole file, changes nothing. */
  lemma {:induction false} WebpOfPrefix(file: seq<Byte>, m: nat)
    requires m <= |file| && (m >= 30 || m == |file|)
    ensures WebpDimensions(file[..m], |file|) == WebpDimensions(file, |file|)
  {
    if m == |file| {
      assert file[..m] == file;
    } else {
      var p := file[..m];
      assert p[..4] == file[..4];
      SliceOfPrefix(file, m, 4, 8);
      SliceOfPrefix(file, m, 8, 12);
      SliceOfPrefix(file, m, 12, 16);
      SliceOfPrefix(file, m, 16, 20);
      SliceOfPrefix(file, m, 21, 25);
      SliceOfPrefix(file, m, 23, 26);
      SliceOfPrefix(file, m, 24, 27);
      SliceOfPrefix(file, m, 27, 30);
      SliceOfPrefix(file, m, 26, 28);
      SliceOfPrefix(file, m, 28, 30);
    }
  }

  // ----- The files that the parser accepts -----

  function PackLittle(n: nat, k: nat): (s: seq<Byte>)
    ensures |s| == k
  {
    if k == 0 then [] else [n % 256] + PackLittle(n / 256, k - 1)
  }

  lemma {:induction false} EightMore(n: nat)
    ensures Pow2(8 + n) == 256 * Pow2(n)
  {
    PowDoubles(8, n);
    PowersOfTwo();
  }

  lemma {:induction false} LittleRoundTrip(n: nat, k: nat)
    requires n < Pow2(8 * k)
    ensures LittleEndian(PackLittle(n, k)) == n
  {
    if k > 0 {
      EightMore(8 * (k - 1));
      LittleRoundTrip(n / 256, k - 1);
      assert PackLittle(n, k)[1..] == PackLittle(n / 256, k - 1);
    }
  }

  lemma {:induction false} LittleUnpacks(s: seq<Byte>)
    ensures LittleEndian(s) < Pow2(8 * |s|) && PackLittle(LittleEndian(s), |s|) == s
  {
    if s != [] {
      EightMore(8 * (|s| - 1));
      LittleUnpacks(s[1..]);
      assert LittleEndian(s) % 256 == s[0] && LittleEndian(s) / 256 == LittleEndian(s[1..]);
      assert s == [s[0]] + s[1..];
    }
  }

  /** The first chunk: an extended header, a lossless bitstream or a lossy key frame. */
  datatype Bitstream =
    | Extended(flags: seq<Byte>, width: nat, height: nat)
    | Lossless(width: nat, height: nat, extra: nat)
    | Lossy(tag: seq<Byte>, width: nat, widthScale: nat, height: nat, heightScale: nat)

  predicate ValidBitstream(b: Bitstream) {
    match b
    case Extended(flags, w, h) => |flags| == 4 && 1 <= w <= 0x100_0000 && 1 <= h <= 0x100_0000
    case Lossless(w, h, extra) => 1 <= w <= 0x4000 && 1 <= h <= 0x4000 && extra < 16
    case Lossy(tag, w, ws, h, hs) => |tag| == 3 && w < 0x4000 && h < 0x4000 && ws < 4 && hs < 4
  }

  predicate ChunkSize(b: Bitstream, size: nat) {
    size < TWO_32 && if b.Extended? then size == 10 else if b.Lossless? then size >= 5 else size >= 10
  }

  function Kind(b: Bitstream): (s: seq<Byte>)
    ensures |s| == 4
  {
    if b.Extended? then VP8X else if b.Lossless? then VP8L else VP8_
  }

  /** The leading bytes of the chunk, which carry the dimensions. */
  function Front(b: Bitstream): seq<Byte>
    requires ValidBitstream(b)
  {
    match b
    case Extended(flags, w, h) => flags + PackLittle(w - 1, 3) + PackLittle(h - 1, 3)
    case Lossless(w, h, extra) => [0x2F] + PackLittle(w - 1 + 0x4000 * (h - 1) + 0x1000_0000 * extra, 4)
    case Lossy(tag, w, ws, h, hs) => tag + VP8_START + PackLittle(w + 0x4000 * ws, 2) + PackLittle(h + 0x4000 * hs, 2)
  }

  /** How a file of the given length with the given first chunk begins. */
  function Opening(length: nat, size: nat, b: Bitstream): seq<Byte>
    requires 8 <= length < TWO_32 + 8 && ValidBitstream(b) && size < TWO_32
  {
    RIFF + PackLittle(length - 8, 4) + WEBP + Kind(b) + PackLittle(size, 4) + Front(b)
  }

  ghost predicate Carries(file: seq<Byte>, size: nat, b: Bitstream) {
    && ValidBitstream(b) && ChunkSize(b, size)
    && 8 <= |file| < TWO_32 + 8 && 20 + size + size % 2 <= |file|
    && Opening(|file|, size, b) <= file
  }

  lemma {:induction false} SixParts(
      file: seq<Byte>, a: seq<Byte>, b: seq<Byte>, c: seq<Byte>, d: seq<Byte>, e: seq<Byte>, f: seq<Byte>)
    requires |a| == |b| == |c| == |d| == |e| == 4
    ensures a + b + c + d + e + f <= file <==>
            && |file| >= 20 + |f| && file[..4] == a && file[4..8] == b && file[8..12] == c
            && file[12..16] == d && file[16..20] == e && file[20..20 + |f|] == f
  {
    var h := a + b + c + d + e + f;
    if h <= file {
      assert file[..|h|] == h;
      assert file[4..8] == h[4..8] && file[8..12] == h[8..12] && file[12..16] == h[12..16] && file[16..20] == h[16..20];
      assert file[20..20 + |f|] == h[20..20 + |f|];
    } else if |file| >= |h| {
      assert file[..|h|] == file[..4] + file[4..8] + file[8..12] + file[12..16] + file[16..20] + file[20..20 + |f|];
    }
  }

  /** What the parser reads of an accepted file, with the masks as remainders. */
  function ChunkDimensions(kind: seq<Byte>, size: nat, body: seq<Byte>): Option<Dimensions> {
    if kind == VP8X && size == 10 && |body| >= 10 then
      Some(Dimensions(1 + LittleEndian(body[4..7]), 1 + LittleEndian(body[7..10])))
    else if kind == VP8L && size >= 5 && |body| >= 5 && body[0] == 0x2F then
      var word := LittleEndian(body[1..5]);
      Some(Dimensions(1 + word % 0x4000, 1 + word / 0x4000 % 0x4000))
    else if kind == VP8_ && size >= 10 && |body| >= 10 && body[3..6] == VP8_START then
      Some(Dimensions(LittleEndian(body[6..8]) % 0x4000, LittleEndian(body[8..10]) % 0x4000))
    else None
  }

  lemma {:induction false} LowBit(n: nat)
    ensures BitAnd(n, 1) == n % 2
  {
    PowersOfTwo();
    MaskIsRemainder(n, 1);
  }

  lemma {:induction false} LowFourteen(n: nat)
    ensures BitAnd(n, 0x3FFF) == n % 0x4000
  {
    PowersOfTwo();
    MaskIsRemainder(n, 14);
  }

  lemma {:induction false} ParserReadsChunk(file: seq<Byte>)
    requires |file| >= 20 && file[..4] == RIFF && file[8..12] == WEBP && LittleEndian(file[4..8]) + 8 == |file|
    ensures var size := LittleEndian(file[16..20]);
            WebpDimensions(file, |file|) ==
            if 20 + size + size % 2 > |file| then None else ChunkDimensions(file[12..16], size, file[20..])
  {
    var size := LittleEndian(file[16..20]);
    LowBit(size);
    if 20 + size + size % 2 <= |file| {
      var body := file[20..];
      SlicesOfBody(file);
      if |body| >= 5 {
        LosslessFields(file[21..25]);
      }
      if |body| >= 10 {
        LowFourteen(LittleEndian(file[26..28]));
        LowFourteen(LittleEndian(file[28..30]));
      }
    }
  }

  lemma {:induction false} SlicesOfBody(file: seq<Byte>)
    requires |file| >= 20
    ensures var body := file[20..];
            && (|body| >= 5 ==> body[0] == file[20] && body[1..5] == file[21..25])
            && (|body| >= 10 ==>
                  && body[4..7] == file[24..27] && body[7..10] == file[27..30]
                  && body[3..6] == file[23..26] && body[6..8] == file[26..28] && body[8..10] == file[28..30])
  {
  }

  function SizeOf(b: Bitstream): Dimensions {
    Dimensions(b.width, b.height)
  }

  lemma {:induction false} LosslessWord(w: nat, h: nat, extra: nat)
    requires w < 0x4000 && h < 0x4000 && extra < 16
    ensures var word := w + 0x4000 * h + 0x1000_0000 * extra;
            word < TWO_32 && word % 0x4000 == w && word / 0x4000 % 0x4000 == h
  {
    RemainderUnique(w + 0x4000 * h + 0x1000_0000 * extra, 0x4000, h + 0x4000 * extra, w);
    RemainderUnique(h + 0x4000 * extra, 0x4000, extra, h);
  }

  lemma {:induction false} ThreeBytes(n: nat)
    requires n < 0x100_0000
    ensures LittleEndian(PackLittle(n, 3)) == n
  {
    PowersOfTwo();
    PowDoubles(14, 10);
    LittleRoundTrip(n, 3);
  }

  lemma {:induction false} ExtendedLayout(a: seq<Byte>, b: seq<Byte>, c: seq<Byte>, body: seq<Byte>)
    requires |a| == 4 && |b| == 3 && |c| == 3 && a + b + c <= body
    ensures |body| >= 10 && body[4..7] == b && body[7..10] == c
  {
    var h := a + b + c;
    assert body[4..7] == h[4..7] && body[7..10] == h[7..10];
  }

  lemma {:induction false} ExtendedIsRead(b: Bitstream, body: seq<Byte>)
    requires ValidBitstream(b) && b.Extended? && Front(b) <= body
    ensures ChunkDimensions(VP8X, 10, body) == Some(SizeOf(b))
  {
    ThreeBytes(b.width - 1);
    ThreeBytes(b.height - 1);
    ExtendedLayout(b.flags, PackLittle(b.width - 1, 3), PackLittle(b.height - 1, 3), body);
  }

  lemma {:induction false} LosslessLayout(signature: Byte, a: seq<Byte>, body: seq<Byte>)
    requires |a| == 4 && [signature] + a <= body
    ensures |body| >= 5 && body[0] == signature && body[1..5] == a
  {
    assert body[1..5] == ([signature] + a)[1..5];
  }

  lemma {:induction false} LosslessIsRead(b: Bitstream, size: nat, body: seq<Byte>)
    requires ValidBitstream(b) && b.Lossless? && size >= 5 && Front(b) <= body
    ensures ChunkDimensions(VP8L, size, body) == Some(SizeOf(b))
  {
    var word := b.width - 1 + 0x4000 * (b.height - 1) + 0x1000_0000 * b.extra;
    LosslessWord(b.width - 1, b.height - 1, b.extra);
    WordRoundTrip(word);
    LosslessLayout(0x2F, PackLittle(word, 4), body);
  }

  /** A 14-bit size below a 2-bit scale. */
  lemma {:induction false} ScaledField(w: nat, scale: nat)
    requires w < 0x4000 && scale < 4
    ensures LittleEndian(PackLittle(w + 0x4000 * scale, 2)) % 0x4000 == w
  {
    PowersOfTwo();
    LittleRoundTrip(w + 0x4000 * scale, 2);
    RemainderUnique(w + 0x4000 * scale, 0x4000, scale, w);
  }

  lemma {:induction false} LossyIsRead(b: Bitstream, size: nat, body: seq<Byte>)
    requires ValidBitstream(b) && b.Lossy? && size >= 10 && Front(b) <= body
    ensures ChunkDimensions(VP8_, size, body) == Some(SizeOf(b))
  {
    ScaledField(b.width, b.widthScale);
    ScaledField(b.height, b.heightScale);
    LossyLayout(b.tag, VP8_START, PackLittle(b.width + 0x4000 * b.widthScale, 2),
                PackLittle(b.height + 0x4000 * b.heightScale, 2), body);
  }

  lemma {:induction false} LossyLayout(a: seq<Byte>, b: seq<Byte>, c: seq<Byte>, d: seq<Byte>, body: seq<Byte>)
    requires |a| == 3 && |b| == 3 && |c| == 2 && |d| == 2 && a + b + c + d <= body
    ensures |body| >= 10 && body[3..6] == b && body[6..8] == c && body[8..10] == d
  {
    var h := a + b + c + d;
    assert body[3..6] == h[3..6] && body[6..8] == h[6..8] && body[8..10] == h[8..10];
  }

  lemma {:induction false} FrontIsRead(b: Bitstream, size: nat, body: seq<Byte>)
    requires ValidBitstream(b) && ChunkSize(b, size) && Front(b) <= body
    ensures ChunkDimensions(Kind(b), size, body) == Some(SizeOf(b))
  {
    match b
    case Extended(_, _, _) => ExtendedIsRead(b, body);
    case Lossless(_, _, _) => LosslessIsRead(b, size, body);
    case Lossy(_, _, _, _, _) => LossyIsRead(b, size, body);
  }

  lemma {:induction false} ExtendedFrom(body: seq<Byte>) returns (b: Bitstream)
    requires |body| >= 10
    ensures ValidBitstream(b) && b.Extended? && Front(b) <= body
    ensures SizeOf(b) == Dimensions(1 + LittleEndian(body[4..7]), 1 + LittleEndian(body[7..10]))
  {
    PowersOfTwo();
    PowDoubles(14, 10);
    LittleUnpacks(body[4..7]);
    LittleUnpacks(body[7..10]);
    b := Extended(body[..4], 1 + LittleEndian(body[4..7]), 1 + LittleEndian(body[7..10]));
    assert body[..10] == body[..4] + body[4..7] + body[7..10];
  }

  lemma {:induction false} LosslessFrom(body: seq<Byte>) returns (b: Bitstream)
    requires |body| >= 5 && body[0] == 0x2F
    ensures ValidBitstream(b) && b.Lossless? && Front(b) <= body
    ensures var word := LittleEndian(body[1..5]);
            SizeOf(b) == Dimensions(1 + word % 0x4000, 1 + word / 0x4000 % 0x4000)
  {
    PowersOfTwo();
    LittleUnpacks(body[1..5]);
    var word := LittleEndian(body[1..5]);
    b := Lossless(1 + word % 0x4000, 1 + word / 0x4000 % 0x4000, word / 0x4000 / 0x4000);
    assert word == word % 0x4000 + 0x4000 * (word / 0x4000 % 0x4000) + 0x1000_0000 * (word / 0x4000 / 0x4000);
    assert body[..5] == [body[0]] + body[1..5];
  }

  lemma {:induction false} LossyFrom(body: seq<Byte>) returns (b: Bitstream)
    requires |body| >= 10 && body[3..6] == VP8_START
    ensures ValidBitstream(b) && b.Lossy? && Front(b) <= body
    ensures SizeOf(b) == Dimensions(LittleEndian(body[6..8]) % 0x4000, LittleEndian(body[8..10]) % 0x4000)
  {
    PowersOfTwo();
    LittleUnpacks(body[6..8]);
    LittleUnpacks(body[8..10]);
    var w, h := LittleEndian(body[6..8]), LittleEndian(body[8..10]);
    b := Lossy(body[..3], w % 0x4000, w / 0x4000, h % 0x4000, h / 0x4000);
    assert body[..10] == body[..3] + body[3..6] + body[6..8] + body[8..10];
  }

  lemma {:induction false} ReadIsFront(kind: seq<Byte>, size: nat, body: seq<Byte>) returns (b: Bitstream)
    requires ChunkDimensions(kind, size, body).Some? && size < TWO_32
    ensures ValidBitstream(b) && ChunkSize(b, size) && Kind(b) == kind && Front(b) <= body
    ensures ChunkDimensions(kind, size, body) == Some(SizeOf(b))
  {
    if kind == VP8X {
      b := ExtendedFrom(body);
    } else if kind == VP8L {
      b := LosslessFrom(body);
    } else {
      b := LossyFrom(body);
    }
  }

  /**
   * The parser accepts a whole file with dimensions d if and only if the file opens as a RIFF container
   * of its own length whose first chunk fits and carries d.
   */
  lemma {:induction false} WebpIsExact(file: seq<Byte>, d: Dimensions)
    ensures WebpDimensions(file, |file|) == Some(d) <==> exists size, b :: Carries(file, size, b) && SizeOf(b) == d
  {
    if WebpDimensions(file, |file|) == Some(d) {
      var size, b := AcceptedCarries(file);
      assert Carries(file, size, b) && SizeOf(b) == d;
    }
    if exists size, b :: Carries(file, size, b) && SizeOf(b) == d {
      var size, b :| Carries(file, size, b) && SizeOf(b) == d;
      CarriedIsAccepted(file, size, b);
    }
  }

  lemma {:induction false} AcceptedCarries(file: seq<Byte>) returns (size: nat, b: Bitstream)
    requires WebpDimensions(file, |file|).Some?
    ensures Carries(file, size, b) && WebpDimensions(file, |file|) == Some(SizeOf(b))
  {
    size := LittleEndian(file[16..20]);
    WordUnpacks(file[4..8]);
    WordUnpacks(file[16..20]);
    ParserReadsChunk(file);
    b := ReadIsFront(file[12..16], size, file[20..]);
    BodyPrefix(file, Front(b));
    SixParts(file, RIFF, PackLittle(|file| - 8, 4), WEBP, Kind(b), PackLittle(size, 4), Front(b));
  }

  lemma {:induction false} WordRoundTrip(n: nat)
    requires n < TWO_32
    ensures LittleEndian(PackLittle(n, 4)) == n
  {
    PowersOfTwo();
    LittleRoundTrip(n, 4);
  }

  lemma {:induction false} WordUnpacks(s: seq<Byte>)
    requires |s| == 4
    ensures LittleEndian(s) < TWO_32 && PackLittle(LittleEndian(s), 4) == s
  {
    PowersOfTwo();
    LittleUnpacks(s);
  }

  lemma {:induction false} BodyPrefix(file: seq<Byte>, front: seq<Byte>)
    requires |file| >= 20
    ensures front <= file[20..] <==> 20 + |front| <= |file| && file[20..20 + |front|] == front
  {
    if 20 + |front| <= |file| {
      assert file[20..20 + |front|] == file[20..][..|front|];
    }
  }

  lemma {:induction false} OpeningParts(file: seq<Byte>, size: nat, b: Bitstream)
    requires Carries(file, size, b)
    ensures |file| >= 20 + |Front(b)| && file[..4] == RIFF && file[8..12] == WEBP && file[12..16] == Kind(b)
    ensures file[4..8] == PackLittle(|file| - 8, 4) && file[16..20] == PackLittle(size, 4)
    ensures file[20..20 + |Front(b)|] == Front(b)
  {
    SixParts(file, RIFF, PackLittle(|file| - 8, 4), WEBP, Kind(b), PackLittle(size, 4), Front(b));
  }

  lemma {:induction false} CarriedLayout(file: seq<Byte>, size: nat, b: Bitstream)
    requires Carries(file, size, b)
    ensures |file| >= 20 && file[..4] == RIFF && file[8..12] == WEBP && file[12..16] == Kind(b)
    ensures LittleEndian(file[4..8]) + 8 == |file| && LittleEndian(file[16..20]) == size
    ensures Front(b) <= file[20..]
  {
    OpeningParts(file, size, b);
    WordRoundTrip(|file| - 8);
    WordRoundTrip(size);
    BodyPrefix(file, Front(b));
  }

  lemma {:induction false} CarriedIsAccepted(file: seq<Byte>, size: nat, b: Bitstream)
    requires Carries(file, size, b)
    ensures WebpDimensions(file, |file|) == Some(SizeOf(b))
  {
    CarriedLayout(file, size, b);
    ParserReadsChunk(file);
    FrontIsRead(b, size, file[20..]);
  }
}
