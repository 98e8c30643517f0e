/**
 * The PNG header: the writer of the default standby frame, and the two parsers, one on the node
 * and one in the control plane (chunk layout and IHDR: RFC 2083, sections 3.2 and 4.1.1).
 */
module Png {
  import opened Prelude
  import opened Bytes
  import opened Crc

  datatype Dimensions = Dimensions(width: nat, height: nat)

  const SIGNATURE: seq<Byte> := [0x89, 0x50, 0x4E, 0x47, 0x0D, 0x0A, 0x1A, 0x0A]
  const IHDR: seq<Byte> := [0x49, 0x48, 0x44, 0x52]
  const IDAT: seq<Byte> := [0x49, 0x44, 0x41, 0x54]
  const IEND: seq<Byte> := [0x49, 0x45, 0x4E, 0x44]

  // ----- Parsers -----

  predicate AllowedDepth(colorType: Byte, depth: Byte) {
    match colorType
    case 0 => depth in {1, 2, 4, 8, 16}
    case 2 => depth in {8, 16}
    case 3 => depth in {1, 2, 4, 8}
    case 4 => depth in {8, 16}
    case 6 => depth in {8, 16}
    case _ => false
  }

  /** Depths below a byte are for grey and palette images, and a palette has no depth of two bytes. */
  lemma {:induction false} DepthsByColor(colorType: Byte, depth: Byte)
    ensures AllowedDepth(colorType, depth) <==>
            && colorType in {0, 2, 3, 4, 6} && depth in {1, 2, 4, 8, 16}
            && (depth < 8 ==> colorType in {0, 3}) && (depth == 16 ==> colorType != 3)
  {
  }

  predicate AllowedFields(ihdr: seq<Byte>)
    requires |ihdr| == 13
  {
    && AllowedDepth(ihdr[9], ihdr[8])
    && ihdr[10] == 0 && ihdr[11] == 0 && ihdr[12] in {0, 1}
  }

  /** The node's parser, which continues the checksum from the chunk kind. */
  function NodeDimensions(payload: seq<Byte>): Option<Dimensions> {
    if |payload| < 33 || !(SIGNATURE <= payload) then None
    else if payload[8..12] != [0, 0, 0, 13] || payload[12..16] != IHDR then None
    else
      var ihdr := payload[16..29];
      var expected := BigEndian(payload[29..33]);
      var actual := BitAnd(Crc32(ihdr, Crc32(IHDR, 0)), ONES);
      if actual != expected then None
      else if !AllowedFields(ihdr) then None
      else Some(Dimensions(BigEndian(ihdr[0..4]), BigEndian(ihdr[4..8])))
  }

  /** The control plane's parser, which checksums kind and data together. */
  function ControlDimensions(payload: seq<Byte>): Option<Dimensions> {
    if |payload| < 33 || !(SIGNATURE <= payload) then None
    else if payload[8..12] != [0, 0, 0, 13] || payload[12..16] != IHDR then None
    else
      var ihdr := payload[16..29];
      var expected := BigEndian(payload[29..33]);
      var actual := BitAnd(Crc32(IHDR + ihdr, 0), ONES);
      if actual != expected then None
      else
        var width, height := BigEndian(ihdr[0..4]), BigEndian(ihdr[4..8]);
        if !AllowedFields(ihdr) then None
        else Some(Dimensions(width, height))
  }

  /** The two parsers are the same function. */
  lemma {:induction false} ParsersAgree(payload: seq<Byte>)
    ensures NodeDimensions(payload) == ControlDimensions(payload)
  {
    if |payload| >= 33 {
      CrcConcat(IHDR, payload[16..29], 0);
    }
  }

  // ----- Writer -----

  function Checksum(kind: seq<Byte>, payload: seq<Byte>): (c: nat)
    ensures c < TWO_32
  {
    CrcBound(kind, 0);
    CrcBound(payload, Crc32(kind, 0));
    MaskedCrc(payload, Crc32(kind, 0));
    BitAnd(Crc32(payload, Crc32(kind, 0)), ONES)
  }

  function Chunk(kind: seq<Byte>, payload: seq<Byte>): seq<Byte>
    requires |payload| < TWO_32
  {
    Pack32(|payload|) + kind + payload + Pack32(Checksum(kind, payload))
  }

  function Ihdr(width: nat, height: nat, depth: Byte, colorType: Byte, interlace: Byte): (s: seq<Byte>)
    requires width < TWO_32 && height < TWO_32
    ensures |s| == 13
  {
    Pack32(width) + Pack32(height) + [depth, colorType, 0, 0, interlace]
  }

  function Header(width: nat, height: nat, depth: Byte, colorType: Byte, interlace: Byte): seq<Byte>
    requires width < TWO_32 && height < TWO_32
  {
    SIGNATURE + Chunk(IHDR, Ihdr(width, height, depth, colorType, interlace))
  }

  /** The file that the writer produces, given the compressed pixel rows. */
  function WritePng(width: nat, height: nat, compressed: seq<Byte>): seq<Byte>
    requires width < TWO_32 && height < TWO_32 && |compressed| < TWO_32
  {
    SIGNATURE + Chunk(IHDR, Ihdr(width, height, 8, 2, 0)) + Chunk(IDAT, compressed) + Chunk(IEND, [])
  }

  // ----- The parser accepts exactly the headers that can be written -----

  ghost predicate StartsWithHeader(payload: seq<Byte>, d: Dimensions) {
    exists depth: Byte, colorType: Byte, interlace: Byte ::
      && d.width < TWO_32 && d.height < TWO_32
      && AllowedDepth(colorType, depth) && interlace in {0, 1}
      && Header(d.width, d.height, depth, colorType, interlace) <= payload
  }

  lemma {:induction false} IhdrLayout(width: nat, height: nat, depth: Byte, colorType: Byte, interlace: Byte)
    requires width < TWO_32 && height < TWO_32
    ensures var ihdr := Ihdr(width, height, depth, colorType, interlace);
            && ihdr[0..4] == Pack32(width) && ihdr[4..8] == Pack32(height)
            && ihdr[8..] == [depth, colorType, 0, 0, interlace]
  {
  }

  lemma {:induction false} HeaderLayout(width: nat, height: nat, depth: Byte, colorType: Byte, interlace: Byte)
    requires width < TWO_32 && height < TWO_32
    ensures var h := Header(width, height, depth, colorType, interlace);
            var ihdr := Ihdr(width, height, depth, colorType, interlace);
            && |h| == 33 && SIGNATURE <= h && h[8..12] == [0, 0, 0, 13] && h[12..16] == IHDR
            && h[16..29] == ihdr && h[29..33] == Pack32(Checksum(IHDR, ihdr))
  {
    ChunkLayout(IHDR, Ihdr(width, height, depth, colorType, interlace));
  }

  /** Stated for any kind, which keeps the verifier from evaluating the checksum of a constant. */
  lemma {:induction false} ChunkLayout(kind: seq<Byte>, data: seq<Byte>)
    requires |kind| == 4 && |data| == 13
    ensures var h := SIGNATURE + Chunk(kind, data);
            && |h| == 33 && SIGNATURE <= h && h[8..12] == [0, 0, 0, 13] && h[12..16] == kind
            && h[16..29] == data && h[29..33] == Pack32(Checksum(kind, data))
  {
    PackedThirteen();
    FiveParts(SIGNATURE, Pack32(13), kind, data, Pack32(Checksum(kind, data)));
  }

  lemma {:induction false} PackedThirteen()
    ensures Pack32(13) == [0, 0, 0, 13]
  {
  }

  lemma {:induction false} FiveParts(a: seq<Byte>, b: seq<Byte>, c: seq<Byte>, d: seq<Byte>, e: seq<Byte>)
    requires |a| == 8 && |b| == 4 && |c| == 4 && |d| == 13 && |e| == 4
    ensures var h := a + (b + c + d + e);
            |h| == 33 && a <= h && h[8..12] == b && h[12..16] == c && h[16..29] == d && h[29..33] == e
  {
  }

  lemma {:induction false} ChunkFromParts(payload: seq<Byte>, kind: seq<Byte>, data: seq<Byte>)
    requires |kind| == 4 && |data| == 13 && |payload| >= 33
    requires SIGNATURE <= payload && payload[8..12] == [0, 0, 0, 13] && payload[12..16] == kind
    requires payload[16..29] == data && payload[29..33] == Pack32(Checksum(kind, data))
    ensures SIGNATURE + Chunk(kind, data) <= payload
  {
    PackedThirteen();
    assert Chunk(kind, data) == Pack32(13) + kind + data + Pack32(Checksum(kind, data));
    FiveSlices(payload, SIGNATURE, Pack32(13), kind, data, Pack32(Checksum(kind, data)));
  }

  lemma {:induction false} FiveSlices(
      p: seq<Byte>, a: seq<Byte>, b: seq<Byte>, c: seq<Byte>, d: seq<Byte>, e: seq<Byte>)
    requires |p| >= 33 && |a| == 8 && a <= p
    requires p[8..12] == b && p[12..16] == c && p[16..29] == d && p[29..33] == e
    ensures a + (b + c + d + e) <= p
  {
  }

  lemma {:induction false} SamePrefix(h: seq<Byte>, payload: seq<Byte>)
    requires h <= payload && |h| == 33
    ensures payload[8..12] == h[8..12] && payload[12..16] == h[12..16]
    ensures payload[16..29] == h[16..29] && payload[29..33] == h[29..33]
  {
  }

  lemma {:induction false} HeaderIsAccepted(
      payload: seq<Byte>, d: Dimensions, depth: Byte, colorType: Byte, interlace: Byte)
    requires d.width < TWO_32 && d.height < TWO_32
    requires AllowedDepth(colorType, depth) && interlace in {0, 1}
    requires Header(d.width, d.height, depth, colorType, interlace) <= payload
    ensures NodeDimensions(payload) == Some(d)
  {
    var h := Header(d.width, d.height, depth, colorType, interlace);
    var ihdr := Ihdr(d.width, d.height, depth, colorType, interlace);
    HeaderLayout(d.width, d.height, depth, colorType, interlace);
    IhdrLayout(d.width, d.height, depth, colorType, interlace);
    SamePrefix(h, payload);
    assert SIGNATURE <= payload;
    Pack32RoundTrip(Checksum(IHDR, ihdr));
    Pack32RoundTrip(d.width);
    Pack32RoundTrip(d.height);
    assert ihdr[8] == ihdr[8..][0] && ihdr[9] == ihdr[8..][1] && ihdr[10] == ihdr[8..][2];
    assert ihdr[11] == ihdr[8..][3] && ihdr[12] == ihdr[8..][4];
  }

  lemma {:induction false} AcceptedParts(payload: seq<Byte>, d: Dimensions)
    requires NodeDimensions(payload) == Some(d)
    ensures |payload| >= 33 && SIGNATURE <= payload && payload[8..12] == [0, 0, 0, 13] && payload[12..16] == IHDR
    ensures BigEndian(payload[29..33]) == Checksum(IHDR, payload[16..29])
    ensures AllowedFields(payload[16..29])
    ensures d == Dimensions(BigEndian(payload[16..29][0..4]), BigEndian(payload[16..29][4..8]))
  {
  }

  lemma {:induction false} AcceptedIsHeader(payload: seq<Byte>, d: Dimensions)
    requires NodeDimensions(payload) == Some(d)
    ensures StartsWithHeader(payload, d)
  {
    var ihdr := payload[16..29];
    AcceptedParts(payload, d);
    Unpack32RoundTrip(payload[29..33]);
    AllowedIsIhdr(ihdr);
    HeaderFromParts(payload, d, ihdr[8], ihdr[9], ihdr[12]);
  }

  lemma {:induction false} AllowedIsIhdr(ihdr: seq<Byte>)
    requires |ihdr| == 13 && AllowedFields(ihdr)
    ensures BigEndian(ihdr[0..4]) < TWO_32 && BigEndian(ihdr[4..8]) < TWO_32
    ensures ihdr == Ihdr(BigEndian(ihdr[0..4]), BigEndian(ihdr[4..8]), ihdr[8], ihdr[9], ihdr[12])
  {
    Unpack32RoundTrip(ihdr[0..4]);
    Unpack32RoundTrip(ihdr[4..8]);
    IhdrFromFields(ihdr);
  }

  lemma {:induction false} IhdrFromFields(ihdr: seq<Byte>)
    requires |ihdr| == 13 && ihdr[10] == 0 && ihdr[11] == 0
    requires BigEndian(ihdr[0..4]) < TWO_32 && Pack32(BigEndian(ihdr[0..4])) == ihdr[0..4]
    requires BigEndian(ihdr[4..8]) < TWO_32 && Pack32(BigEndian(ihdr[4..8])) == ihdr[4..8]
    ensures ihdr == Ihdr(BigEndian(ihdr[0..4]), BigEndian(ihdr[4..8]), ihdr[8], ihdr[9], ihdr[12])
  {
  }

  lemma {:induction false} HeaderFromParts(
      payload: seq<Byte>, d: Dimensions, depth: Byte, colorType: Byte, interlace: Byte)
    requires d.width < TWO_32 && d.height < TWO_32 && |payload| >= 33
    requires SIGNATURE <= payload && payload[8..12] == [0, 0, 0, 13] && payload[12..16] == IHDR
    requires payload[16..29] == Ihdr(d.width, d.height, depth, colorType, interlace)
    requires payload[29..33] == Pack32(Checksum(IHDR, payload[16..29]))
    ensures Header(d.width, d.height, depth, colorType, interlace) <= payload
  {
    ChunkFromParts(payload, IHDR, Ihdr(d.width, d.height, depth, colorType, interlace));
  }

  /**
   * A parser returns the dimensions d exactly on the payloads that begin with a well-formed header
   * for d.
   */
  lemma {:induction false} ParserIsExact(payload: seq<Byte>, d: Dimensions)
    ensures NodeDimensions(payload) == Some(d) <==> StartsWithHeader(payload, d)
    ensures ControlDimensions(payload) == Some(d) <==> StartsWithHeader(payload, d)
  {
    ParsersAgree(payload);
    if StartsWithHeader(payload, d) {
      var depth: Byte, colorType: Byte, interlace: Byte :|
        && d.width < TWO_32 && d.height < TWO_32
        && AllowedDepth(colorType, depth) && interlace in {0, 1}
        && Header(d.width, d.height, depth, colorType, interlace) <= payload;
      HeaderIsAccepted(payload, d, depth, colorType, interlace);
    }
    if NodeDimensions(payload) == Some(d) {
      AcceptedIsHeader(payload, d);
    }
  }

  /** Both parsers read back the size of every file that the writer can produce. */
  lemma {:induction false} WriterRoundTrip(width: nat, height: nat, compressed: seq<Byte>)
    requires width < TWO_32 && height < TWO_32 && |compressed| < TWO_32
    ensures NodeDimensions(WritePng(width, height, compressed)) == Some(Dimensions(width, height))
    ensures ControlDimensions(WritePng(width, height, compressed)) == Some(Dimensions(width, height))
  {
    var png := WritePng(width, height, compressed);
    assert Header(width, height, 8, 2, 0) <= png;
    HeaderIsAccepted(png, Dimensions(width, height), 8, 2, 0);
    ParsersAgree(png);
  }

  // ----- The whole file -----

  datatype Part = Part(kind: seq<Byte>, data: seq<Byte>)

  /** Chunk after chunk to the end of the bytes: length, kind, data, and a checksum over kind and data. */
  function ReadChunks(s: seq<Byte>): Option<seq<Part>>
    decreases |s|
  {
    if s == [] then Some([])
    else if |s| < 12 then None
    else
      var n := BigEndian(s[..4]);
      if |s| < 12 + n then None
      else
        var kind, data := s[4..8], s[8..8 + n];
        if BigEndian(s[8 + n..12 + n]) != Crc32(kind + data, 0) then None
        else
          match ReadChunks(s[12 + n..])
          case None => None
          case Some(parts) => Some([Part(kind, data)] + parts)
  }

  function ReadFile(s: seq<Byte>): Option<seq<Part>> {
    if SIGNATURE <= s then ReadChunks(s[8..]) else None
  }

  lemma {:induction false} ChecksumOfWhole(kind: seq<Byte>, data: seq<Byte>)
    ensures Checksum(kind, data) == Crc32(kind + data, 0)
  {
    CrcConcat(kind, data, 0);
    CrcBound(kind, 0);
    MaskedCrc(data, Crc32(kind, 0));
  }

  lemma {:induction false} ChunkParts(a: seq<Byte>, b: seq<Byte>, c: seq<Byte>, d: seq<Byte>, rest: seq<Byte>)
    requires |a| == |b| == |d| == 4
    ensures var s := a + b + c + d + rest;
            && |s| == 12 + |c| + |rest| && s[..4] == a && s[4..8] == b && s[8..8 + |c|] == c
            && s[8 + |c|..12 + |c|] == d && s[12 + |c|..] == rest
  {
  }

  /** A written chunk is read back, and reading goes on behind it. */
  lemma {:induction false} ChunkRoundTrip(kind: seq<Byte>, data: seq<Byte>, rest: seq<Byte>)
    requires |kind| == 4 && |data| < TWO_32 && ReadChunks(rest).Some?
    ensures ReadChunks(Chunk(kind, data) + rest) == Some([Part(kind, data)] + ReadChunks(rest).value)
  {
    ChunkParts(Pack32(|data|), kind, data, Pack32(Checksum(kind, data)), rest);
    Pack32RoundTrip(|data|);
    Pack32RoundTrip(Checksum(kind, data));
    ChecksumOfWhole(kind, data);
    ChunkIsRead(Chunk(kind, data) + rest, kind, data, rest);
  }

  lemma {:induction false} ChunkIsRead(s: seq<Byte>, kind: seq<Byte>, data: seq<Byte>, rest: seq<Byte>)
    requires |s| == 12 + |data| + |rest| && BigEndian(s[..4]) == |data|
    requires s[4..8] == kind && s[8..8 + |data|] == data && s[12 + |data|..] == rest
    requires BigEndian(s[8 + |data|..12 + |data|]) == Crc32(kind + data, 0)
    requires ReadChunks(rest).Some?
    ensures ReadChunks(s) == Some([Part(kind, data)] + ReadChunks(rest).value)
  {
  }

  predicate ValidPart(p: Part) {
    |p.kind| == 4 && |p.data| < TWO_32
  }

  predicate ValidParts(parts: seq<Part>) {
    forall i :: 0 <= i < |parts| ==> ValidPart(parts[i])
  }

  function Chunks(parts: seq<Part>): seq<Byte>
    requires ValidParts(parts)
  {
    if parts == [] then [] else Chunk(parts[0].kind, parts[0].data) + Chunks(parts[1..])
  }

  lemma {:induction false} ChunksRoundTrip(parts: seq<Part>)
    requires ValidParts(parts)
    ensures ReadChunks(Chunks(parts)) == Some(parts)
  {
    if parts != [] {
      ChunksRoundTrip(parts[1..]);
      ChunkRoundTrip(parts[0].kind, parts[0].data, Chunks(parts[1..]));
      assert [Part(parts[0].kind, parts[0].data)] + parts[1..] == parts;
    }
  }

  lemma {:induction false} FirstChunk(p: Part, rest: seq<Part>)
    requires ValidPart(p) && ValidParts(rest)
    ensures Chunks([p] + rest) == Chunk(p.kind, p.data) + Chunks(rest)
  {
    assert ([p] + rest)[1..] == rest;
  }

  lemma {:induction false} Regrouped(s: seq<Byte>, x: seq<Byte>, y: seq<Byte>, z: seq<Byte>)
    ensures s + x + y + z == s + (x + (y + (z + [])))
  {
  }

  lemma {:induction false} ThreeChunks(a: Part, b: Part, c: Part)
    requires ValidPart(a) && ValidPart(b) && ValidPart(c)
    ensures SIGNATURE + Chunk(a.kind, a.data) + Chunk(b.kind, b.data) + Chunk(c.kind, c.data)
            == SIGNATURE + Chunks([a] + ([b] + ([c] + [])))
  {
    FirstChunk(c, []);
    FirstChunk(b, [c] + []);
    FirstChunk(a, [b] + ([c] + []));
    Regrouped(SIGNATURE, Chunk(a.kind, a.data), Chunk(b.kind, b.data), Chunk(c.kind, c.data));
  }

  lemma {:induction false} FileOfChunks(file: seq<Byte>, a: Part, b: Part, c: Part)
    requires ValidPart(a) && ValidPart(b) && ValidPart(c)
    requires file == SIGNATURE + Chunk(a.kind, a.data) + Chunk(b.kind, b.data) + Chunk(c.kind, c.data)
    ensures ReadFile(file) == Some([a, b, c])
  {
    var parts := [a] + ([b] + ([c] + []));
    ThreeChunks(a, b, c);
    assert file[8..] == Chunks(parts);
    ChunksRoundTrip(parts);
    assert parts == [a, b, c];
  }

  /** What the writer puts into its file, with the size of the frame in the header. */
  function Contents(width: nat, height: nat, compressed: seq<Byte>): (parts: seq<Part>)
    requires width < TWO_32 && height < TWO_32
  {
    [Part(IHDR, Pack32(width) + Pack32(height) + [8, 2, 0, 0, 0]), Part(IDAT, compressed), Part(IEND, [])]
  }

  /** The written file is a header for 8-bit true colour, the compressed rows, and the end, with nothing behind it. */
  lemma {:induction false} FileRoundTrip(file: seq<Byte>, width: nat, height: nat, compressed: seq<Byte>)
    requires width < TWO_32 && height < TWO_32 && |compressed| < TWO_32
    requires file == WritePng(width, height, compressed)
    ensures ReadFile(file) == Some(Contents(width, height, compressed))
  {
    var parts := Contents(width, height, compressed);
    FileOfChunks(file, parts[0], parts[1], parts[2]);
  }
}
