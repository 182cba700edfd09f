/** FSV2: the 80-byte header in front of every encoded access unit, and the byte
    stream made of headers and payloads. */
module VideoPacketProtocol {
  import opened Bytes
  import opened Options

  const VIDEO_PACKET_MAGIC: u32 := 0x46535632
  const VIDEO_PACKET_VERSION: u16 := 2
  const VIDEO_PACKET_HEADER_SIZE := 80
  const CODEC_H264: u32 := 1
  const INT64_MAX := 0x7fff_ffff_ffff_ffff

  type i64 = x: int | -0x8000_0000_0000_0000 <= x <= 0x7fff_ffff_ffff_ffff

  datatype VideoGeometry = VideoGeometry(
    logicalWidth: u32, logicalHeight: u32, codedWidth: u32, codedHeight: u32, displayRotation: u32)

  /** The four header flags, kept apart; `FlagBits` is the word on the wire. */
  datatype VideoFlags = VideoFlags(codecConfig: bool, keyFrame: bool, endOfStream: bool, discontinuity: bool)

  function Bit(b: bool, weight: nat): nat { if b then weight else 0 }

  function FlagBits(f: VideoFlags): (bits: u32)
    ensures bits < 16
  {
    Bit(f.codecConfig, 1) + Bit(f.keyFrame, 2) + Bit(f.endOfStream, 4) + Bit(f.discontinuity, 8)
  }

  datatype VideoPacketHeader = VideoPacketHeader(
    streamId: u32, generation: u32, sequence: u64, presentationTimeUs: i64, flags: u32, codec: u32,
    codedWidth: u32, codedHeight: u32, logicalWidth: u32, logicalHeight: u32,
    displayRotation: u32, payloadSize: u32, frameSubmitTimeNs: u64)

  predicate IsValidDisplayRotation(rotation: u32) {
    rotation == 0 || rotation == 90 || rotation == 180 || rotation == 270
  }

  predicate HasMatchingDisplayAspect(g: VideoGeometry) {
    && g.logicalWidth != 0 && g.logicalHeight != 0 && g.codedWidth != 0 && g.codedHeight != 0
    && IsValidDisplayRotation(g.displayRotation)
    && if g.displayRotation == 90 || g.displayRotation == 270
       then g.logicalWidth * g.codedWidth == g.logicalHeight * g.codedHeight
       else g.logicalWidth * g.codedHeight == g.logicalHeight * g.codedWidth
  }

  function Geometry(h: VideoPacketHeader): VideoGeometry {
    VideoGeometry(h.logicalWidth, h.logicalHeight, h.codedWidth, h.codedHeight, h.displayRotation)
  }

  predicate IsValidHeader(h: VideoPacketHeader) {
    && h.presentationTimeUs >= 0
    && h.codec == CODEC_H264
    && HasMatchingDisplayAspect(Geometry(h))
    && h.flags < 16 // only the four known flag bits
  }

  // ---------- the header as a layout of integers ----------

  const HEADER_LAYOUT: Layout := [4, 2, 2, 4, 4, 8, 8, 4, 4, 4, 4, 4, 4, 4, 4, 8, 8]

  function HeaderValues(h: VideoPacketHeader): seq<nat>
    requires h.presentationTimeUs >= 0
  {
    [VIDEO_PACKET_MAGIC, VIDEO_PACKET_VERSION, VIDEO_PACKET_HEADER_SIZE,
     h.streamId, h.generation, h.sequence, h.presentationTimeUs, h.flags, h.codec,
     h.codedWidth, h.codedHeight, h.logicalWidth, h.logicalHeight,
     h.payloadSize, h.displayRotation, h.frameSubmitTimeNs, 0]
  }

  lemma {:induction false} HeaderFits(h: VideoPacketHeader)
    requires h.presentationTimeUs >= 0
    ensures Fits(HeaderValues(h), HEADER_LAYOUT)
  {
    Pow256Values();
  }

  /** Offsets of the fields, as the source names them. */
  lemma {:induction false} HeaderOffsets()
    ensures Size(HEADER_LAYOUT) == VIDEO_PACKET_HEADER_SIZE
  {
    FieldOffsets(HEADER_LAYOUT);
  }

  /** `HEADER_LAYOUT`, field by field. */
  ghost predicate LayoutOf(l: Layout) {
    && |l| == 17 && l[0] == 4 && l[1] == l[2] == 2 && l[3] == l[4] == 4 && l[5] == l[6] == 8
    && l[7] == l[8] == l[9] == l[10] == l[11] == l[12] == l[13] == l[14] == 4 && l[15] == l[16] == 8
  }

  lemma {:induction false} FieldOffsets(l: Layout)
    requires LayoutOf(l)
    ensures Size(l[..0]) == 0 && Size(l[..1]) == 4 && Size(l[..2]) == 6 && Size(l[..3]) == 8
    ensures Size(l[..4]) == 12 && Size(l[..5]) == 16 && Size(l[..6]) == 24 && Size(l[..7]) == 32
    ensures Size(l[..8]) == 36 && Size(l[..9]) == 40 && Size(l[..10]) == 44 && Size(l[..11]) == 48
    ensures Size(l[..12]) == 52 && Size(l[..13]) == 56 && Size(l[..14]) == 60 && Size(l[..15]) == 64
    ensures Size(l[..16]) == 72 && Size(l[..17]) == 80 && Size(l) == 80
  {
    assert Size(l[..0]) == 0;
    hide Size;
    SizePrefix(l, 0); SizePrefix(l, 1); SizePrefix(l, 2); SizePrefix(l, 3); SizePrefix(l, 4);
    SizePrefix(l, 5); SizePrefix(l, 6); SizePrefix(l, 7); SizePrefix(l, 8); SizePrefix(l, 9);
    SizePrefix(l, 10); SizePrefix(l, 11); SizePrefix(l, 12); SizePrefix(l, 13); SizePrefix(l, 14);
    SizePrefix(l, 15); SizePrefix(l, 16);
    assert l[..17] == l;
  }

  function EncodeHeader(h: VideoPacketHeader): (bytes: seq<byte>)
    requires h.presentationTimeUs >= 0
    ensures |bytes| == VIDEO_PACKET_HEADER_SIZE
  {
    HeaderFits(h);
    HeaderOffsets();
    Pack(HeaderValues(h), HEADER_LAYOUT)
  }

  /** What a receiver reads from 80 bytes. */
  function DecodeHeader(bytes: seq<byte>): (r: Option<VideoPacketHeader>)
    requires |bytes| == VIDEO_PACKET_HEADER_SIZE
  {
    HeaderOffsets();
    HeaderFromFields(Unpack(bytes, HEADER_LAYOUT))
  }

  function HeaderFromFields(v: seq<nat>): Option<VideoPacketHeader>
    requires Fits(v, HEADER_LAYOUT)
  {
    Pow256Values();
    if v[0] != VIDEO_PACKET_MAGIC || v[1] != VIDEO_PACKET_VERSION || v[2] != VIDEO_PACKET_HEADER_SIZE
       || v[16] != 0 || v[6] > INT64_MAX
    then None
    else
      var h := VideoPacketHeader(v[3], v[4], v[5], v[6], v[7], v[8], v[9], v[10], v[11], v[12], v[14], v[13], v[15]);
      if IsValidHeader(h) then Some(h) else None
  }

  /** Header round trip: parsing the written header gives the header back. */
  lemma {:induction false} DecodeEncodeHeader(h: VideoPacketHeader)
    requires IsValidHeader(h)
    ensures DecodeHeader(EncodeHeader(h)) == Some(h)
  {
    HeaderFits(h);
    HeaderOffsets();
    UnpackPack(HeaderValues(h), HEADER_LAYOUT);
  }

  /** Every accepted header is the one canonical encoding of a valid header. */
  lemma {:induction false} EncodeDecodeHeader(bytes: seq<byte>)
    requires |bytes| == VIDEO_PACKET_HEADER_SIZE && DecodeHeader(bytes).Some?
    ensures IsValidHeader(DecodeHeader(bytes).value)
    ensures EncodeHeader(DecodeHeader(bytes).value) == bytes
  {
    HeaderOffsets();
    PackUnpack(bytes, HEADER_LAYOUT);
    SeventeenFields(Unpack(bytes, HEADER_LAYOUT));
  }

  lemma {:induction false} SeventeenFields(v: seq<nat>)
    requires |v| == 17
    ensures v == [v[0], v[1], v[2], v[3], v[4], v[5], v[6], v[7], v[8], v[9], v[10], v[11], v[12], v[13], v[14],
                  v[15], v[16]]
  {
  }

  // ---------- the two buffer-walking routines ----------

  method SerializeVideoPacketHeader(h: VideoPacketHeader, output: array<byte>) returns (ok: bool)
    requires output.Length == VIDEO_PACKET_HEADER_SIZE
    modifies output
    ensures ok == IsValidHeader(h)
    ensures ok ==> output[..] == EncodeHeader(h)
    ensures !ok ==> output[..] == old(output[..])
  {
    if !IsValidHeader(h) {
      return false;
    }
    HeaderFits(h);
    HeaderOffsets();
    var index := 0;
    while index < output.Length
      invariant 0 <= index <= output.Length
      invariant forall k :: 0 <= k < index ==> output[k] == 0
    {
      output[index] := 0;
      index := index + 1;
    }
    WriteHeaderFields(h, output, HeaderValues(h), HEADER_LAYOUT);
    return true;
  }

  method WriteHeaderFields(h: VideoPacketHeader, output: array<byte>, ghost v: seq<nat>, ghost l: Layout)
    requires output.Length == VIDEO_PACKET_HEADER_SIZE
    requires h.presentationTimeUs >= 0 && v == HeaderValues(h) && l == HEADER_LAYOUT
    modifies output
    ensures Fits(v, l) && output[..] == Pack(v, l)
  {
    hide Pack;
    hide Size;
    hide Pow256;
    HeaderFits(h);
    FieldOffsets(l);
    WriteStreamFields(h, output, v, l);
    WritePictureFields(h, output, v, l);
    assert v[..17] == v && l[..17] == l;
    assert output[..] == output[..80];
  }

  method WriteStreamFields(h: VideoPacketHeader, output: array<byte>, ghost v: seq<nat>, ghost l: Layout)
    requires output.Length == VIDEO_PACKET_HEADER_SIZE
    requires Fits(v, l) && LayoutOf(l) && h.presentationTimeUs >= 0
    requires v[0] == VIDEO_PACKET_MAGIC && v[1] == VIDEO_PACKET_VERSION && v[2] == VIDEO_PACKET_HEADER_SIZE
    requires v[3] == h.streamId
    requires v[4] == h.generation && v[5] == h.sequence && v[6] == h.presentationTimeUs && v[7] == h.flags
    modifies output
    ensures Fits(v[..8], l[..8]) && output[..36] == Pack(v[..8], l[..8])
  {
    assert Pack(v[..0], l[..0]) == [];
    hide Pack;
    hide Size;
    hide Pow256;
    FieldOffsets(l);
    WriteField(output, 0, VIDEO_PACKET_MAGIC, 4, v, l, 0);
    WriteField(output, 4, VIDEO_PACKET_VERSION, 2, v, l, 1);
    WriteField(output, 6, VIDEO_PACKET_HEADER_SIZE, 2, v, l, 2);
    WriteField(output, 8, h.streamId, 4, v, l, 3);
    WriteField(output, 12, h.generation, 4, v, l, 4);
    WriteField(output, 16, h.sequence, 8, v, l, 5);
    WriteField(output, 24, h.presentationTimeUs, 8, v, l, 6);
    WriteField(output, 32, h.flags, 4, v, l, 7);
  }

  method WritePictureFields(h: VideoPacketHeader, output: array<byte>, ghost v: seq<nat>, ghost l: Layout)
    requires output.Length == VIDEO_PACKET_HEADER_SIZE
    requires Fits(v, l) && LayoutOf(l) && h.presentationTimeUs >= 0
    requires v[8] == h.codec && v[9] == h.codedWidth && v[10] == h.codedHeight && v[11] == h.logicalWidth
    requires v[12] == h.logicalHeight && v[13] == h.payloadSize && v[14] == h.displayRotation && v[15] == h.frameSubmitTimeNs
    requires v[16] == 0
    requires Fits(v[..8], l[..8]) && output[..36] == Pack(v[..8], l[..8])
    modifies output
    ensures Fits(v[..17], l[..17]) && output[..80] == Pack(v[..17], l[..17])
  {
    hide Pack;
    hide Size;
    hide Pow256;
    FieldOffsets(l);
    WriteField(output, 36, h.codec, 4, v, l, 8);
    WriteField(output, 40, h.codedWidth, 4, v, l, 9);
    WriteField(output, 44, h.codedHeight, 4, v, l, 10);
    WriteField(output, 48, h.logicalWidth, 4, v, l, 11);
    WriteField(output, 52, h.logicalHeight, 4, v, l, 12);
    WriteField(output, 56, h.payloadSize, 4, v, l, 13);
    WriteField(output, 60, h.displayRotation, 4, v, l, 14);
    WriteField(output, 64, h.frameSubmitTimeNs, 8, v, l, 15);
    WriteField(output, 72, 0, 8, v, l, 16);
  }

  lemma {:induction false} FieldsAtOffsets(b: seq<byte>, l: Layout)
    requires |b| == 80 && LayoutOf(l)
    ensures Size(l) == 80
    ensures Unpack(b, l)[0] == FromBytes(b[0..4])
    ensures Unpack(b, l)[1] == FromBytes(b[4..6])
    ensures Unpack(b, l)[2] == FromBytes(b[6..8])
    ensures Unpack(b, l)[3] == FromBytes(b[8..12])
    ensures Unpack(b, l)[4] == FromBytes(b[12..16])
    ensures Unpack(b, l)[5] == FromBytes(b[16..24])
    ensures Unpack(b, l)[6] == FromBytes(b[24..32])
    ensures Unpack(b, l)[7] == FromBytes(b[32..36])
    ensures Unpack(b, l)[8] == FromBytes(b[36..40])
    ensures Unpack(b, l)[9] == FromBytes(b[40..44])
    ensures Unpack(b, l)[10] == FromBytes(b[44..48])
    ensures Unpack(b, l)[11] == FromBytes(b[48..52])
    ensures Unpack(b, l)[12] == FromBytes(b[52..56])
    ensures Unpack(b, l)[13] == FromBytes(b[56..60])
    ensures Unpack(b, l)[14] == FromBytes(b[60..64])
    ensures Unpack(b, l)[15] == FromBytes(b[64..72])
    ensures Unpack(b, l)[16] == FromBytes(b[72..80])
  {
    FieldOffsets(l);
    UnpackAt(b, l, 0); UnpackAt(b, l, 1); UnpackAt(b, l, 2); UnpackAt(b, l, 3); UnpackAt(b, l, 4);
    UnpackAt(b, l, 5); UnpackAt(b, l, 6); UnpackAt(b, l, 7); UnpackAt(b, l, 8); UnpackAt(b, l, 9);
    UnpackAt(b, l, 10); UnpackAt(b, l, 11); UnpackAt(b, l, 12); UnpackAt(b, l, 13); UnpackAt(b, l, 14);
    UnpackAt(b, l, 15); UnpackAt(b, l, 16);
  }

  /** The header on the wire: which field stands where, each with its most significant byte first. */
  lemma {:induction false} HeaderBytesAre(h: VideoPacketHeader)
    requires IsValidHeader(h)
    ensures var b := EncodeHeader(h);
            && FromBytes(b[0..4]) == 0x4653_5632 && FromBytes(b[4..6]) == 2 && FromBytes(b[6..8]) == 80
            && FromBytes(b[8..12]) == h.streamId && FromBytes(b[12..16]) == h.generation
            && FromBytes(b[16..24]) == h.sequence && FromBytes(b[24..32]) == h.presentationTimeUs
            && FromBytes(b[32..36]) == h.flags && FromBytes(b[36..40]) == h.codec
            && FromBytes(b[40..44]) == h.codedWidth && FromBytes(b[44..48]) == h.codedHeight
            && FromBytes(b[48..52]) == h.logicalWidth && FromBytes(b[52..56]) == h.logicalHeight
            && FromBytes(b[56..60]) == h.payloadSize && FromBytes(b[60..64]) == h.displayRotation
            && FromBytes(b[64..72]) == h.frameSubmitTimeNs && FromBytes(b[72..80]) == 0
  {
    hide FromBytes;
    hide Pack;
    hide Size;
    hide Fits;
    HeaderFits(h);
    FieldsOfPacked(HeaderValues(h), HEADER_LAYOUT);
    HeaderValuesAre(h, HeaderValues(h));
    hide HeaderValues;
    hide IsValidHeader;
  }

  lemma {:induction false} FieldsOfPacked(v: seq<nat>, l: Layout)
    requires Fits(v, l) && LayoutOf(l)
    ensures var b := Pack(v, l);
            && |b| == 80
            && FromBytes(b[0..4]) == v[0] && FromBytes(b[4..6]) == v[1] && FromBytes(b[6..8]) == v[2]
            && FromBytes(b[8..12]) == v[3] && FromBytes(b[12..16]) == v[4] && FromBytes(b[16..24]) == v[5]
            && FromBytes(b[24..32]) == v[6] && FromBytes(b[32..36]) == v[7] && FromBytes(b[36..40]) == v[8]
            && FromBytes(b[40..44]) == v[9] && FromBytes(b[44..48]) == v[10] && FromBytes(b[48..52]) == v[11]
            && FromBytes(b[52..56]) == v[12] && FromBytes(b[56..60]) == v[13] && FromBytes(b[60..64]) == v[14]
            && FromBytes(b[64..72]) == v[15] && FromBytes(b[72..80]) == v[16]
  {
    FieldOffsets(l);
    UnpackPack(v, l);
    hide FromBytes;
    hide Pack;
    hide Unpack;
    hide Size;
    hide Fits;
    FieldsAtOffsets(Pack(v, l), l);
  }

  lemma {:induction false} HeaderValuesAre(h: VideoPacketHeader, v: seq<nat>)
    requires h.presentationTimeUs >= 0 && v == HeaderValues(h)
    ensures |v| == 17 && v[0] == 0x4653_5632 && v[1] == 2 && v[2] == 80 && v[3] == h.streamId && v[4] == h.generation
    ensures v[5] == h.sequence && v[6] == h.presentationTimeUs && v[7] == h.flags && v[8] == h.codec
    ensures v[9] == h.codedWidth && v[10] == h.codedHeight && v[11] == h.logicalWidth && v[12] == h.logicalHeight
    ensures v[13] == h.payloadSize && v[14] == h.displayRotation && v[15] == h.frameSubmitTimeNs && v[16] == 0
  {
  }

  /** A geometry matches when the coded picture has the shape of the display, turned as it is. */
  lemma {:induction false} MatchingAspectIsRatio(g: VideoGeometry)
    ensures HasMatchingDisplayAspect(g)
            <==> && g.logicalWidth > 0 && g.logicalHeight > 0 && g.codedWidth > 0 && g.codedHeight > 0
                 && (g.displayRotation == 0 || g.displayRotation == 90 || g.displayRotation == 180 || g.displayRotation == 270)
                 && g.codedWidth as real / g.codedHeight as real
                    == if g.displayRotation == 90 || g.displayRotation == 270
                       then g.logicalHeight as real / g.logicalWidth as real
                       else g.logicalWidth as real / g.logicalHeight as real
  {
    if g.logicalWidth > 0 && g.logicalHeight > 0 && g.codedHeight > 0 {
      RatiosAreEqual(g.codedWidth, g.codedHeight, g.logicalWidth, g.logicalHeight);
      RatiosAreEqual(g.codedWidth, g.codedHeight, g.logicalHeight, g.logicalWidth);
    }
  }

  lemma {:induction false} RatiosAreEqual(a: nat, b: nat, c: nat, d: nat)
    requires b > 0 && d > 0
    ensures a as real / b as real == c as real / d as real <==> a * d == c * b
  {
    var x, y := a as real / b as real, c as real / d as real;
    assert x * b as real == a as real && y * d as real == c as real;
    assert (a * d) as real == a as real * d as real == x * (b as real * d as real);
    assert (c * b) as real == c as real * b as real == y * (b as real * d as real);
    assert b as real * d as real > 0.0;
    if x != y {
      assert (x - y) * (b as real * d as real) != 0.0;
    }
  }

  method ParseVideoPacketHeader(input: seq<byte>) returns (r: Option<VideoPacketHeader>)
    requires |input| == VIDEO_PACKET_HEADER_SIZE
    ensures r == DecodeHeader(input)
  {
    HeaderOffsets();
    FieldsAtOffsets(input, HEADER_LAYOUT);
    r := ReadHeaderFields(input, Unpack(input, HEADER_LAYOUT));
  }

  method ReadHeaderFields(input: seq<byte>, ghost v: seq<nat>) returns (r: Option<VideoPacketHeader>)
    requires |input| == VIDEO_PACKET_HEADER_SIZE
    requires Fits(v, HEADER_LAYOUT)
    requires v[0] == FromBytes(input[0..4])
    requires v[1] == FromBytes(input[4..6])
    requires v[2] == FromBytes(input[6..8])
    requires v[3] == FromBytes(input[8..12])
    requires v[4] == FromBytes(input[12..16])
    requires v[5] == FromBytes(input[16..24])
    requires v[6] == FromBytes(input[24..32])
    requires v[7] == FromBytes(input[32..36])
    requires v[8] == FromBytes(input[36..40])
    requires v[9] == FromBytes(input[40..44])
    requires v[10] == FromBytes(input[44..48])
    requires v[11] == FromBytes(input[48..52])
    requires v[12] == FromBytes(input[52..56])
    requires v[13] == FromBytes(input[56..60])
    requires v[14] == FromBytes(input[60..64])
    requires v[15] == FromBytes(input[64..72])
    requires v[16] == FromBytes(input[72..80])
    ensures r == HeaderFromFields(v)
  {
    Pow256Values();
    hide FromBytes;
    hide Size;
    var magic := ReadUint(input, 0, 4);
    var version := ReadUint(input, 4, 2);
    var headerSize := ReadUint(input, 6, 2);
    var reserved := ReadUint(input, 72, 8);
    if magic != VIDEO_PACKET_MAGIC || version != VIDEO_PACKET_VERSION
       || headerSize != VIDEO_PACKET_HEADER_SIZE || reserved != 0 {
      return None;
    }
    var streamId := ReadUint(input, 8, 4);
    var generation := ReadUint(input, 12, 4);
    var sequence := ReadUint(input, 16, 8);
    var presentationTime := ReadUint(input, 24, 8);
    if presentationTime > INT64_MAX {
      return None;
    }
    var flags := ReadUint(input, 32, 4);
    var codec := ReadUint(input, 36, 4);
    var codedWidth := ReadUint(input, 40, 4);
    var codedHeight := ReadUint(input, 44, 4);
    var logicalWidth := ReadUint(input, 48, 4);
    var logicalHeight := ReadUint(input, 52, 4);
    var payloadSize := ReadUint(input, 56, 4);
    var rotation := ReadUint(input, 60, 4);
    var submitTime := ReadUint(input, 64, 8);
    var parsed := VideoPacketHeader(streamId, generation, sequence, presentationTime, flags, codec,
      codedWidth, codedHeight, logicalWidth, logicalHeight, rotation, payloadSize, submitTime);
    if !IsValidHeader(parsed) {
      return None;
    }
    return Some(parsed);
  }
}
