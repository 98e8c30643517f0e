/**
 * The JPEG header walk. Node and control plane carry the same loop; `JpegDimensions` is that loop,
 * `Scan` is its meaning on the remaining bytes, and the grammar below says which payloads it accepts
 * (marker segments: ITU-T T.81, sections B.1.1 and B.2.2).
 */
module Jpeg {
  import opened Prelude
  import opened Bytes
  import opened Png

  const SOI: seq<Byte> := [0xFF, 0xD8]

  predicate IsFrameMarker(m: Byte) {
    m in {0xC0, 0xC1, 0xC2, 0xC3, 0xC5, 0xC6, 0xC7, 0xC9, 0xCA, 0xCB, 0xCD, 0xCE, 0xCF}
  }

  /** Markers without a segment that the walk steps over. */
  predicate IsStandalone(m: Byte) {
    m == 0xD8 || m == 0x01 || 0xD0 <= m <= 0xD7
  }

  /** Markers at which the walk gives up. */
  predicate IsStop(m: Byte) {
    m in {0x00, 0xD9, 0xDA}
  }

  /**
   * The frame markers are C0 to CF without the table markers C4 and CC and the extension C8. The walk steps over
   * TEM, the restart markers and a repeated SOI, and gives up at a zero byte, at EOI and at SOS.
   */
  lemma {:induction false} MarkerClasses(m: Byte)
    ensures IsFrameMarker(m) <==> 0xC0 <= m <= 0xCF && m != 0xC4 && m != 0xC8 && m != 0xCC
    ensures IsStandalone(m) <==> m == 0x01 || 0xD0 <= m <= 0xD8
    ensures IsStop(m) <==> m == 0x00 || 0xD9 <= m <= 0xDA
  {
  }

  /** What a successful walk found: the dimensions and how many bytes it had to see. */
  datatype Found = Found(width: nat, height: nat, used: nat)

  function SkipFill(s: seq<Byte>): (r: seq<Byte>)
    ensures |r| <= |s| && (r != [] ==> r[0] != 0xFF)
    ensures s != [] && s[0] == 0xFF ==> |r| < |s|
  {
    if s == [] || s[0] != 0xFF then s else SkipFill(s[1..])
  }

  function ParseFrame(u: seq<Byte>, length: nat): Option<Dimensions>
    requires 2 <= length <= |u|
  {
    if length < 11 then None
    else
      var precision := u[2];
      var height := BigEndian(u[3..5]);
      var width := BigEndian(u[5..7]);
      var components := u[7];
      if precision <= 0 || precision > 16 || components <= 0 then None
      else if length != 8 + 3 * components as int then None
      else Some(Dimensions(width, height))
  }

  /** The walk over the bytes that are left, from the start of a marker. */
  function Scan(s: seq<Byte>): Option<Found>
    decreases |s|, 0
  {
    if s == [] || s[0] != 0xFF then None
    else
      var t := SkipFill(s);
      if t == [] then None else After(|s| - |t| + 1, ScanBehind(t[0], t[1..]))
  }

  /** The walk from just behind a marker. */
  function ScanBehind(marker: Byte, u: seq<Byte>): Option<Found>
    decreases |u|, 1
  {
    if IsStop(marker) then None
    else if IsStandalone(marker) then Scan(u)
    else if |u| < 2 then None
    else
      var length := BigEndian(u[..2]);
      if length < 2 || length > |u| then None
      else if IsFrameMarker(marker) then
        var d := ParseFrame(u, length);
        if d.None? then None else Some(Found(d.value.width, d.value.height, length))
      else After(length, Scan(u[length..]))
  }

  function After(before: nat, found: Option<Found>): Option<Found> {
    if found.None? then None else Some(found.value.(used := before + found.value.used))
  }

  function Dims(found: Option<Found>): Option<Dimensions> {
    if found.None? then None else Some(Dimensions(found.value.width, found.value.height))
  }

  /** What the parser returns for a whole payload. */
  function Walk(payload: seq<Byte>): Option<Found> {
    if |payload| < 4 || !(SOI <= payload) then None else After(2, Scan(payload[2..]))
  }

  /** The inner loop over fill bytes. */
  method SkipFillBytes(payload: seq<Byte>, start: nat) returns (offset: nat)
    requires start <= |payload|
    ensures start <= offset <= |payload|
    ensures payload[offset..] == SkipFill(payload[start..])
    ensures offset < |payload| ==> payload[offset] != 0xFF
  {
    offset := start;
    while offset < |payload| && payload[offset] == 0xFF
      invariant start <= offset <= |payload|
      invariant SkipFill(payload[offset..]) == SkipFill(payload[start..])
    {
      assert payload[offset..][1..] == payload[offset + 1..];
      offset := offset + 1;
    }
  }

  /** The branch for a start-of-frame segment at `offset`. */
  method FrameAt(payload: seq<Byte>, offset: nat, length: nat) returns (r: Option<Dimensions>)
    requires 2 <= length && offset + length <= |payload|
    ensures r == ParseFrame(payload[offset..], length)
  {
    if length < 11 {
      return None;
    }
    ghost var u := payload[offset..];
    assert payload[offset + 3..offset + 5] == u[3..5] && payload[offset + 5..offset + 7] == u[5..7];
    var precision := payload[offset + 2];
    var height := BigEndian(payload[offset + 3..offset + 5]);
    var width := BigEndian(payload[offset + 5..offset + 7]);
    var components := payload[offset + 7];
    if precision <= 0 || precision > 16 || components <= 0 {
      return None;
    }
    if length != 8 + 3 * components as int {
      return None;
    }
    return Some(Dimensions(width, height));
  }

  /** The branches on a marker: either the walk is over, or it goes on at `next`. */
  method BehindMarker(payload: seq<Byte>, offset: nat) returns (done: bool, r: Option<Dimensions>, next: nat)
    requires 1 <= offset <= |payload|
    ensures done ==> r == Dims(ScanBehind(payload[offset - 1], payload[offset..]))
    ensures !done ==> offset <= next <= |payload|
    ensures !done ==> Dims(Scan(payload[next..])) == Dims(ScanBehind(payload[offset - 1], payload[offset..]))
  {
    var marker := payload[offset - 1];
    if marker == 0x00 {
      return true, None, offset;
    }
    if marker == 0xD8 {
      return false, None, offset;
    }
    if marker in {0xD9, 0xDA} {
      return true, None, offset;
    }
    if marker == 0x01 || 0xD0 <= marker <= 0xD7 {
      return false, None, offset;
    }
    if offset + 2 > |payload| {
      return true, None, offset;
    }
    SegmentCases(payload, offset);
    var length := BigEndian(payload[offset..offset + 2]);
    if length < 2 {
      return true, None, offset;
    }
    var segmentEnd := offset + length;
    if segmentEnd > |payload| {
      return true, None, offset;
    }
    if IsFrameMarker(marker) {
      var d := FrameAt(payload, offset, length);
      return true, d, offset;
    }
    return false, None, segmentEnd;
  }

  /** The parser as both programs run it. */
  method JpegDimensions(payload: seq<Byte>) returns (r: Option<Dimensions>)
    ensures r == Dims(Walk(payload))
  {
    if |payload| < 4 || !(SOI <= payload) {
      return None;
    }
    var offset := 2;
    while offset < |payload|
      invariant 2 <= offset <= |payload|
      invariant Dims(Walk(payload)) == Dims(Scan(payload[offset..]))
      decreases |payload| - offset
    {
      ghost var start := offset;
      if payload[offset] != 0xFF {
        return None;
      }
      offset := SkipFillBytes(payload, offset);
      if offset >= |payload| {
        return None;
      }
      offset := offset + 1;
      MarkerCases(payload, start, offset);
      var done;
      done, r, offset := BehindMarker(payload, offset);
      if done {
        return;
      }
    }
    return None;
  }

  /** One round of the walk in terms of offsets: `at` is just behind the marker. */
  lemma {:induction false} MarkerCases(payload: seq<Byte>, start: nat, at: nat)
    requires start < at <= |payload| && payload[start] == 0xFF
    requires payload[at - 1..] == SkipFill(payload[start..])
    ensures Dims(Scan(payload[start..])) == Dims(ScanBehind(payload[at - 1], payload[at..]))
  {
  }

  /** The segment branch of a round. */
  lemma {:induction false} SegmentCases(payload: seq<Byte>, at: nat)
    requires 1 <= at && at + 2 <= |payload| && !IsStop(payload[at - 1]) && !IsStandalone(payload[at - 1])
    ensures var m := payload[at - 1];
            var length := BigEndian(payload[at..at + 2]);
            Dims(ScanBehind(m, payload[at..])) ==
            if length < 2 || at + length > |payload| then None
            else if IsFrameMarker(m) then ParseFrame(payload[at..], length)
            else Dims(Scan(payload[at + length..]))
  {
    var u := payload[at..];
    assert payload[at..at + 2] == u[..2];
    var length := BigEndian(u[..2]);
    if length <= |u| {
      assert payload[at + length..] == u[length..];
    }
  }

  // ----- The grammar -----

  /** Anything that may stand before the frame header, with `fill` extra fill bytes in front. */
  datatype Item =
    | Standalone(fill: nat, marker: Byte)
    | Segment(fill: nat, marker: Byte, body: seq<Byte>)

  datatype Frame = Frame(fill: nat, marker: Byte, precision: Byte, height: nat, width: nat, components: seq<Byte>)

  predicate ValidItem(i: Item) {
    match i
    case Standalone(_, m) => IsStandalone(m)
    case Segment(_, m, body) =>
      m != 0xFF && !IsStop(m) && !IsStandalone(m) && !IsFrameMarker(m) && |body| + 2 < 0x1_0000
  }

  /** A start-of-frame segment whose length agrees with its number of components. */
  predicate ValidFrame(f: Frame) {
    && IsFrameMarker(f.marker) && 1 <= f.precision <= 16
    && f.height < 0x1_0000 && f.width < 0x1_0000
    && |f.components| % 3 == 0 && 1 <= |f.components| / 3 <= 255
  }

  function Fill(n: nat): (s: seq<Byte>)
    ensures |s| == n
  {
    if n == 0 then [] else [0xFF] + Fill(n - 1)
  }

  function Marker(fill: nat, m: Byte): (s: seq<Byte>)
    ensures |s| == fill + 2
  {
    Fill(fill + 1) + [m]
  }

  function EncodeItem(i: Item): (s: seq<Byte>)
    requires ValidItem(i)
    ensures |s| > 0
  {
    match i
    case Standalone(fill, m) => Marker(fill, m)
    case Segment(fill, m, body) => Marker(fill, m) + (Pack16(|body| + 2) + body)
  }

  function EncodeItems(items: seq<Item>): seq<Byte>
    requires forall i :: 0 <= i < |items| ==> ValidItem(items[i])
  {
    if items == [] then [] else EncodeItem(items[0]) + EncodeItems(items[1..])
  }

  function FrameBody(f: Frame): (s: seq<Byte>)
    requires ValidFrame(f)
    ensures |s| == 8 + |f.components|
  {
    Pack16(8 + |f.components|) + ([f.precision] + Pack16(f.height) + Pack16(f.width) + [|f.components| / 3]) + f.components
  }

  function EncodeFrame(f: Frame): seq<Byte>
    requires ValidFrame(f)
  {
    Marker(f.fill, f.marker) + FrameBody(f)
  }

  ghost predicate ValidItems(items: seq<Item>) {
    forall i :: 0 <= i < |items| ==> ValidItem(items[i])
  }

  /** `s` begins with items and a frame header that carry the found dimensions and end at `used`. */
  ghost predicate Derives(s: seq<Byte>, items: seq<Item>, f: Frame, found: Found) {
    && ValidItems(items) && ValidFrame(f)
    && EncodeItems(items) + EncodeFrame(f) <= s
    && found == Found(f.width, f.height, |EncodeItems(items) + EncodeFrame(f)|)
  }

  // ----- Completeness: the walk reads every encoding -----

  /** A marker is a fill byte in front of the marker with one fill byte less. */
  lemma {:induction false} MarkerUnfolds(fill: nat, m: Byte, u: seq<Byte>)
    ensures fill == 0 ==> Marker(fill, m) + u == [0xFF] + ([m] + u)
    ensures fill > 0 ==> Marker(fill, m) + u == [0xFF] + (Marker(fill - 1, m) + u)
  {
    if fill == 0 {
      assert Fill(1) == [0xFF];
    } else {
      assert Fill(fill + 1) == [0xFF] + Fill(fill);
    }
  }

  lemma {:induction false} SkipOne(t: seq<Byte>)
    ensures SkipFill([0xFF] + t) == SkipFill(t)
  {
    assert ([0xFF] + t)[1..] == t;
  }

  lemma {:induction false} SkipMarker(fill: nat, m: Byte, u: seq<Byte>)
    requires m != 0xFF
    ensures SkipFill(Marker(fill, m) + u) == [m] + u
    ensures (Marker(fill, m) + u)[0] == 0xFF
    decreases fill
  {
    MarkerUnfolds(fill, m, u);
    if fill == 0 {
      SkipOne([m] + u);
    } else {
      SkipOne(Marker(fill - 1, m) + u);
      SkipMarker(fill - 1, m, u);
    }
  }

  lemma {:induction false} ScanMarker(fill: nat, m: Byte, u: seq<Byte>)
    requires m != 0xFF
    ensures Scan(Marker(fill, m) + u) == After(fill + 2, ScanBehind(m, u))
  {
    SkipMarker(fill, m, u);
    assert ([m] + u)[1..] == u;
  }

  lemma {:induction false} ScanSegment(m: Byte, body: seq<Byte>, rest: seq<Byte>)
    requires !IsStop(m) && !IsStandalone(m) && !IsFrameMarker(m) && |body| + 2 < 0x1_0000
    ensures ScanBehind(m, Pack16(|body| + 2) + body + rest) == After(|body| + 2, Scan(rest))
  {
    var u := Pack16(|body| + 2) + body + rest;
    assert u[..2] == Pack16(|body| + 2);
    Pack16RoundTrip(|body| + 2);
    assert u[|body| + 2..] == rest;
  }

  lemma {:induction false} ScanItem(i: Item, rest: seq<Byte>)
    requires ValidItem(i)
    ensures Scan(EncodeItem(i) + rest) == After(|EncodeItem(i)|, Scan(rest))
  {
    match i
    case Standalone(fill, m) => ScanMarker(fill, m, rest);
    case Segment(fill, m, body) =>
      var u := Pack16(|body| + 2) + body;
      Joined(Marker(fill, m), u, rest);
      ScanMarker(fill, m, u + rest);
      ScanSegment(m, body, rest);
  }

  lemma {:induction false} Joined(a: seq<Byte>, b: seq<Byte>, c: seq<Byte>)
    ensures (a + b) + c == a + (b + c)
  {
  }

  lemma {:induction false} FrameParses(f: Frame, rest: seq<Byte>)
    requires ValidFrame(f)
    ensures var u := FrameBody(f) + rest;
            var length := 8 + |f.components|;
            && length <= |u| && BigEndian(u[..2]) == length
            && ParseFrame(u, length) == Some(Dimensions(f.width, f.height))
  {
    var u := FrameBody(f) + rest;
    var fixed := [f.precision] + Pack16(f.height) + Pack16(f.width) + [|f.components| / 3];
    assert u == Pack16(8 + |f.components|) + fixed + (f.components + rest);
    assert u[..2] == Pack16(8 + |f.components|);
    assert u[2] == f.precision && u[3..5] == Pack16(f.height) && u[5..7] == Pack16(f.width);
    assert u[7] == |f.components| / 3;
    Pack16RoundTrip(8 + |f.components|);
    Pack16RoundTrip(f.height);
    Pack16RoundTrip(f.width);
  }

  /** The walk reads the encoded bytes `e` in front of `rest` and finds the frame at their end. */
  ghost predicate Finds(e: seq<Byte>, rest: seq<Byte>, f: Frame) {
    Scan(e + rest) == Some(Found(f.width, f.height, |e|))
  }

  lemma {:induction false} ScanFrame(f: Frame, rest: seq<Byte>)
    requires ValidFrame(f)
    ensures Finds(EncodeFrame(f), rest, f)
  {
    Joined(Marker(f.fill, f.marker), FrameBody(f), rest);
    ScanMarker(f.fill, f.marker, FrameBody(f) + rest);
    FrameParses(f, rest);
  }

  lemma {:induction false} ScanItems(items: seq<Item>, f: Frame, rest: seq<Byte>)
    requires ValidItems(items) && ValidFrame(f)
    ensures Finds(EncodeItems(items) + EncodeFrame(f), rest, f)
    decreases |items|
  {
    if items == [] {
      assert EncodeItems(items) + EncodeFrame(f) == EncodeFrame(f);
      ScanFrame(f, rest);
    } else {
      ScanItems(items[1..], f, rest);
      ScanFirst(items[0], EncodeItems(items[1..]) + EncodeFrame(f), rest, f);
      EncodeCons(items);
      Joined(EncodeItem(items[0]), EncodeItems(items[1..]), EncodeFrame(f));
    }
  }

  lemma {:induction false} ScanFirst(i: Item, e: seq<Byte>, rest: seq<Byte>, f: Frame)
    requires ValidItem(i) && Finds(e, rest, f)
    ensures Finds(EncodeItem(i) + e, rest, f)
  {
    Joined(EncodeItem(i), e, rest);
    ScanItem(i, e + rest);
  }

  lemma {:induction false} EncodeCons(items: seq<Item>)
    requires items != [] && ValidItems(items)
    ensures EncodeItems(items) == EncodeItem(items[0]) + EncodeItems(items[1..])
  {
  }

  // ----- Soundness: whatever the walk accepts is an encoding -----

  lemma {:induction false} SplitMarker(s: seq<Byte>) returns (fill: nat)
    requires s != [] && s[0] == 0xFF && SkipFill(s) != []
    ensures s == Marker(fill, SkipFill(s)[0]) + SkipFill(s)[1..]
    decreases |s|
  {
    var t := SkipFill(s);
    if s[1] != 0xFF {
      fill := 0;
      assert Fill(1) == [0xFF];
      assert s == [0xFF] + [s[1]] + s[2..];
    } else {
      var less := SplitMarker(s[1..]);
      fill := less + 1;
      assert Fill(fill + 1) == [0xFF] + Fill(fill);
      assert s == [0xFF] + s[1..];
    }
  }

  /** The frame header that a successful `ParseFrame` has read. */
  lemma {:induction false} FrameOf(fill: nat, marker: Byte, u: seq<Byte>, length: nat) returns (f: Frame)
    requires IsFrameMarker(marker) && 2 <= length <= |u| && BigEndian(u[..2]) == length
    requires ParseFrame(u, length).Some?
    ensures ValidFrame(f) && f.fill == fill && f.marker == marker
    ensures ParseFrame(u, length) == Some(Dimensions(f.width, f.height))
    ensures u[..length] == FrameBody(f)
  {
    Unpack16RoundTrip(u[..2]);
    Unpack16RoundTrip(u[3..5]);
    Unpack16RoundTrip(u[5..7]);
    f := Frame(fill, marker, u[2], BigEndian(u[3..5]), BigEndian(u[5..7]), u[8..length]);
    assert u[..length] == u[..2] + ([u[2]] + u[3..5] + u[5..7] + [u[7]]) + u[8..length];
  }

  lemma {:induction false} SegmentOf(fill: nat, marker: Byte, u: seq<Byte>, length: nat) returns (i: Item)
    requires marker != 0xFF && !IsStop(marker) && !IsStandalone(marker) && !IsFrameMarker(marker)
    requires 2 <= length <= |u| && BigEndian(u[..2]) == length
    ensures ValidItem(i) && EncodeItem(i) == Marker(fill, marker) + u[..length]
  {
    Unpack16RoundTrip(u[..2]);
    i := Segment(fill, marker, u[2..length]);
    assert u[..length] == u[..2] + u[2..length];
  }

  lemma {:induction false} Prepend(i: Item, items: seq<Item>, f: Frame, rest: seq<Byte>, found: Found)
    requires ValidItem(i) && Derives(rest, items, f, found)
    ensures Derives(EncodeItem(i) + rest, [i] + items, f, found.(used := |EncodeItem(i)| + found.used))
  {
    assert ([i] + items)[1..] == items;
    Joined(EncodeItem(i), EncodeItems(items), EncodeFrame(f));
    PrefixBehind(EncodeItem(i), EncodeItems(items) + EncodeFrame(f), rest);
  }

  lemma {:induction false} PrefixBehind(a: seq<Byte>, b: seq<Byte>, c: seq<Byte>)
    requires b <= c
    ensures a + b <= a + c
  {
  }

  lemma {:induction false} ScanDerives(s: seq<Byte>) returns (items: seq<Item>, f: Frame)
    requires Scan(s).Some?
    ensures Derives(s, items, f, Scan(s).value)
    decreases |s|, 0
  {
    var fill := SplitMarker(s);
    var t := SkipFill(s);
    items, f := BehindDerives(fill, t[0], t[1..]);
  }

  lemma {:induction false} BehindDerives(fill: nat, marker: Byte, u: seq<Byte>) returns (items: seq<Item>, f: Frame)
    requires marker != 0xFF && ScanBehind(marker, u).Some?
    ensures var found := ScanBehind(marker, u).value;
            Derives(Marker(fill, marker) + u, items, f, found.(used := fill + 2 + found.used))
    decreases |u|, 1
  {
    if IsStandalone(marker) {
      items, f := ScanDerives(u);
      Prepend(Standalone(fill, marker), items, f, u, Scan(u).value);
      items := [Standalone(fill, marker)] + items;
    } else {
      var length := BigEndian(u[..2]);
      if IsFrameMarker(marker) {
        f := FrameOf(fill, marker, u, length);
        items := [];
        Split(Marker(fill, marker), u, length);
        OnlyFrame(f, u[length..]);
      } else {
        var i := SegmentOf(fill, marker, u, length);
        items, f := ScanDerives(u[length..]);
        Split(Marker(fill, marker), u, length);
        Prepend(i, items, f, u[length..], Scan(u[length..]).value);
        items := [i] + items;
      }
    }
  }

  lemma {:induction false} Split(m: seq<Byte>, u: seq<Byte>, length: nat)
    requires length <= |u|
    ensures m + u == (m + u[..length]) + u[length..]
  {
  }

  lemma {:induction false} OnlyFrame(f: Frame, rest: seq<Byte>)
    requires ValidFrame(f)
    ensures Derives(EncodeFrame(f) + rest, [], f, Found(f.width, f.height, |EncodeFrame(f)|))
  {
  }

  ghost predicate Encodes(s: seq<Byte>, found: Found) {
    exists items, f :: Derives(s, items, f, found)
  }

  /**
   * The parser is exact: it returns (w, h), having seen n bytes behind SOI, if and only if those
   * bytes are any mix of fill bytes, standalone markers and well-formed segments, then a valid frame
   * header for (w, h). Anything at all may follow.
   */
  lemma {:induction false} WalkIsExact(payload: seq<Byte>, w: nat, h: nat, n: nat)
    ensures Walk(payload) == Some(Found(w, h, 2 + n)) <==> SOI <= payload && Encodes(payload[2..], Found(w, h, n))
  {
    if Walk(payload) == Some(Found(w, h, 2 + n)) {
      var items, f := ScanDerives(payload[2..]);
    }
    if SOI <= payload && Encodes(payload[2..], Found(w, h, n)) {
      var items, f :| Derives(payload[2..], items, f, Found(w, h, n));
      DerivedIsScanned(payload[2..], items, f, Found(w, h, n));
    }
  }

  lemma {:induction false} DerivedIsScanned(s: seq<Byte>, items: seq<Item>, f: Frame, found: Found)
    requires Derives(s, items, f, found)
    ensures Scan(s) == Some(found) && |s| >= 2
  {
    var e := EncodeItems(items) + EncodeFrame(f);
    assert s == e + s[|e|..];
    ScanItems(items, f, s[|e|..]);
  }

  /** Round trip: the parser returns the encoded dimensions, whatever stands before or after. */
  lemma {:induction false} EncoderRoundTrip(items: seq<Item>, f: Frame, trailing: seq<Byte>)
    requires ValidItems(items) && ValidFrame(f)
    ensures Dims(Walk(SOI + (EncodeItems(items) + EncodeFrame(f) + trailing))) == Some(Dimensions(f.width, f.height))
  {
    var rest := EncodeItems(items) + EncodeFrame(f) + trailing;
    assert (SOI + rest)[2..] == rest;
    ScanItems(items, f, trailing);
  }

  // ----- Prefix stability -----

  lemma {:induction false} SkipFillOfPrefix(s: seq<Byte>, m: nat)
    requires m <= |s|
    ensures var gone := |s| - |SkipFill(s)|;
            && s[gone..] == SkipFill(s)
            && SkipFill(s[..m]) == if gone <= m then s[gone..m] else []
    decreases |s|
  {
    if s != [] && s[0] == 0xFF {
      var t := s[1..];
      var gone := |t| - |SkipFill(t)|;
      SkipFillOfPrefix(t, if m > 0 then m - 1 else 0);
      assert s[gone + 1..] == t[gone..];
      if m > 0 {
        assert s[..m][1..] == t[..m - 1];
        if gone + 1 <= m {
          assert s[gone + 1..m] == t[gone..m - 1];
        }
      }
    }
  }

  ghost function Within(found: Option<Found>, m: int): Option<Found> {
    if found.Some? && found.value.used <= m then found else None
  }

  /** On a prefix the walk finds the same thing, or runs out of bytes before the frame header ends. */
  lemma {:induction false} ScanOfPrefix(s: seq<Byte>, m: nat)
    requires m <= |s|
    ensures Scan(s[..m]) == Within(Scan(s), m)
    decreases |s|, 0
  {
    if m > 0 && s[0] == 0xFF {
      SkipFillOfPrefix(s, m);
      var t := SkipFill(s);
      var gone := |s| - |t|;
      if gone < m {
        ScanBehindOfPrefix(t[0], t[1..], m - gone - 1);
        assert s[gone..m] == t[..m - gone];
        assert t[..m - gone][1..] == t[1..][..m - gone - 1];
      }
    }
  }

  lemma {:induction false} ScanBehindOfPrefix(marker: Byte, u: seq<Byte>, n: nat)
    requires n <= |u|
    ensures ScanBehind(marker, u[..n]) == Within(ScanBehind(marker, u), n)
    decreases |u|, 1
  {
    if IsStandalone(marker) {
      ScanOfPrefix(u, n);
    } else if !IsStop(marker) && n >= 2 {
      assert u[..n][..2] == u[..2];
      var length := BigEndian(u[..2]);
      if 2 <= length <= n {
        if IsFrameMarker(marker) {
          ParseFrameOfPrefix(u, n, length);
        } else {
          assert u[..n][length..] == u[length..][..n - length];
          ScanOfPrefix(u[length..], n - length);
        }
      }
    }
  }

  lemma {:induction false} ParseFrameOfPrefix(u: seq<Byte>, n: nat, length: nat)
    requires 2 <= length <= n <= |u|
    ensures ParseFrame(u[..n], length) == ParseFrame(u, length)
  {
    if length >= 11 {
      assert u[..n][3..5] == u[3..5] && u[..n][5..7] == u[5..7];
    }
  }

  lemma {:induction false} WalkOfPrefix(payload: seq<Byte>, m: nat)
    requires m <= |payload|
    ensures Walk(payload[..m]) == Within(Walk(payload), m)
  {
    if |payload| >= 4 && m >= 4 {
      assert payload[..m][2..] == payload[2..][..m - 2];
      ScanOfPrefix(payload[2..], m - 2);
    } else if Walk(payload).Some? {
      ScanNeedsMore(payload[2..]);
    }
  }

  /** A frame header takes more than the two bytes that are left of a four-byte payload. */
  lemma {:induction false} ScanNeedsMore(s: seq<Byte>)
    requires Scan(s).Some?
    ensures Scan(s).value.used > 2
    decreases |s|
  {
    var t := SkipFill(s);
    var u := t[1..];
    if IsStandalone(t[0]) {
      ScanNeedsMore(u);
    }
  }
}
