/** FDO1 as both sides agree on it: what a well-formed message is, and its one encoding. */
module Fdo1 {
  import opened Bytes
  import opened InputStateMachine

  const PACKET_MAGIC: u32 := 0x4644_4f31
  const PACKET_VERSION: u16 := 1
  const PACKET_HEADER_SIZE := 24
  const MAXIMUM_PAYLOAD_SIZE := 0x1_0000
  const BIND_REQUEST_SIZE := 8
  const BIND_RESPONSE_SIZE := 28
  const TOUCH_EVENT_SIZE := 24
  const TARGET_INVALIDATED_SIZE := 12
  const MAXIMUM_POINTER_ID := 31

  const ROUTE_REQUEST: u16 := 0x2000
  const ROUTE_RESPONSE: u16 := 0x2100
  const ROUTE_EVENT: u16 := 0x2200
  const ROUTE_ERROR: u16 := 0x2300

  datatype Header = Header(operationCode: u16, routeKind: u16, requestId: u32, payloadSize: u32)

  datatype BindRequest = BindRequest(targetSlot: u8, mode: u8, displayPort: u8, streamId: u32)

  datatype BindResponse = BindResponse(
    result: u32, targetSlot: u8, displayPort: u8, streamId: u32, inputEpoch: u32,
    logicalWidth: u32, logicalHeight: u32, rotation: u16)

  datatype TargetInvalidated = TargetInvalidated(targetSlot: u8, reason: u8, streamId: u32, inputEpoch: u32)

  predicate IsWellFormedHeader(h: Header) {
    && (h.routeKind == ROUTE_REQUEST || h.routeKind == ROUTE_RESPONSE || h.routeKind == ROUTE_EVENT
        || h.routeKind == ROUTE_ERROR)
    && (h.routeKind == ROUTE_EVENT <==> h.requestId == 0)
    && h.payloadSize <= MAXIMUM_PAYLOAD_SIZE
  }

  predicate IsWellFormedBind(b: BindRequest) { b.mode == MODE_EXCLUSIVE && b.streamId != 0 }

  /** The integer ranges of a touch on the wire. */
  predicate FitsWire(e: TouchEvent) {
    && 0 <= e.targetSlot < 0x100 && 0 <= e.action < 0x100 && 0 <= e.pointerId < 0x100
    && 0 <= e.inputEpoch < 0x1_0000_0000 && 0 <= e.sequence < 0x1_0000_0000
  }

  /** A cancel names no pointer; a pointer that is down presses. */
  predicate IsWellFormedTouch(e: TouchEvent) {
    && FitsWire(e)
    && ACTION_DOWN <= e.action <= ACTION_CANCEL && e.pointerId <= MAXIMUM_POINTER_ID
    && e.inputEpoch != 0 && e.sequence != 0
    && (e.action == ACTION_DOWN || e.action == ACTION_MOVE ==> e.pressure != 0)
    && (e.action == ACTION_CANCEL ==> e.pointerId == e.x == e.y == e.pressure == e.touchMajor == 0)
  }

  predicate IsWellFormedResponse(r: BindResponse) {
    && r.result <= 7 && (r.rotation == 0 || r.rotation == 90 || r.rotation == 180 || r.rotation == 270)
    && if r.result <= 1 then r.streamId != 0 && r.inputEpoch != 0 && r.logicalWidth != 0 && r.logicalHeight != 0
       else r.inputEpoch == r.logicalWidth == r.logicalHeight == r.rotation == 0
  }

  predicate IsWellFormedInvalidation(e: TargetInvalidated) {
    (e.reason == 1 || e.reason == 2) && e.streamId != 0 && e.inputEpoch != 0
  }

  // ---------- encodings ----------

  const HEADER_LAYOUT: Layout := [4, 2, 2, 2, 2, 4, 4, 4]
  const BIND_LAYOUT: Layout := [1, 1, 1, 1, 4]
  const TOUCH_LAYOUT: Layout := [1, 1, 1, 1, 4, 4, 2, 2, 2, 2, 4]
  const RESPONSE_LAYOUT: Layout := [4, 1, 1, 2, 4, 4, 4, 4, 2, 2]

  const INVALIDATED_LAYOUT: Layout := [1, 1, 2, 4, 4]

  function HeaderValues(h: Header): seq<nat> {
    [PACKET_MAGIC, PACKET_VERSION, PACKET_HEADER_SIZE, h.operationCode, h.routeKind, h.requestId, h.payloadSize, 0]
  }

  function BindValues(b: BindRequest): seq<nat> { [b.targetSlot, b.mode, b.displayPort, 0, b.streamId] }

  function TouchValues(e: TouchEvent): seq<nat>
    requires FitsWire(e)
  {
    [e.targetSlot, e.action, e.pointerId, 0, e.inputEpoch, e.sequence, e.x, e.y, e.pressure, e.touchMajor, 0]
  }

  function ResponseValues(r: BindResponse): seq<nat> {
    [r.result, r.targetSlot, r.displayPort, 0, r.streamId, r.inputEpoch, r.logicalWidth, r.logicalHeight, r.rotation, 0]
  }

  function InvalidatedValues(e: TargetInvalidated): seq<nat> { [e.targetSlot, e.reason, 0, e.streamId, e.inputEpoch] }

  lemma {:induction false} InvalidatedFits(e: TargetInvalidated)
    ensures Fits(InvalidatedValues(e), INVALIDATED_LAYOUT)
  {
    Pow256Values();
  }

  lemma {:induction false} HeaderFits(h: Header)
    ensures Fits(HeaderValues(h), HEADER_LAYOUT)
  {
    Pow256Values();
  }

  lemma {:induction false} BindFits(b: BindRequest)
    ensures Fits(BindValues(b), BIND_LAYOUT)
  {
    Pow256Values();
  }

  lemma {:induction false} TouchFits(e: TouchEvent)
    requires FitsWire(e)
    ensures Fits(TouchValues(e), TOUCH_LAYOUT)
  {
    Pow256Values();
  }

  lemma {:induction false} ResponseFits(r: BindResponse)
    ensures Fits(ResponseValues(r), RESPONSE_LAYOUT)
  {
    Pow256Values();
  }

  function EncodeHeader(h: Header): seq<byte> {
    HeaderFits(h);
    Pack(HeaderValues(h), HEADER_LAYOUT)
  }

  function EncodeBind(b: BindRequest): seq<byte> {
    BindFits(b);
    Pack(BindValues(b), BIND_LAYOUT)
  }

  function EncodeTouch(e: TouchEvent): seq<byte>
    requires FitsWire(e)
  {
    TouchFits(e);
    Pack(TouchValues(e), TOUCH_LAYOUT)
  }

  function EncodeResponse(r: BindResponse): seq<byte> {
    ResponseFits(r);
    Pack(ResponseValues(r), RESPONSE_LAYOUT)
  }

  function EncodeInvalidated(e: TargetInvalidated): seq<byte> {
    InvalidatedFits(e);
    Pack(InvalidatedValues(e), INVALIDATED_LAYOUT)
  }

  /** Bytes pack to given values exactly when each field reads as its value. */
  lemma {:induction false} PacksTo(bytes: seq<byte>, values: seq<nat>, layout: Layout)
    requires Fits(values, layout)
    ensures Pack(values, layout) == bytes <==> |bytes| == Size(layout) && Unpack(bytes, layout) == values
  {
    UnpackPack(values, layout);
    if |bytes| == Size(layout) {
      PackUnpack(bytes, layout);
    }
  }

  lemma {:induction false} OneByte(b: byte)
    ensures FromBytes([b]) == b
  {
    assert FromBytes([b]) == FromBytes([b][..0]) * 256 + b;
  }

  lemma {:induction false} EightValues(a: seq<nat>, b: seq<nat>)
    requires |a| == |b| == 8
    ensures a == b <==>
                     && a[0] == b[0] && a[1] == b[1] && a[2] == b[2] && a[3] == b[3] && a[4] == b[4] && a[5] == b[5]
                     && a[6] == b[6] && a[7] == b[7]
  {
    assert a == b <==> forall i :: 0 <= i < 8 ==> a[i] == b[i];
  }

  lemma {:induction false} TenValues(a: seq<nat>, b: seq<nat>)
    requires |a| == |b| == 10
    ensures a == b <==>
                     && a[0] == b[0] && a[1] == b[1] && a[2] == b[2] && a[3] == b[3] && a[4] == b[4] && a[5] == b[5]
                     && a[6] == b[6] && a[7] == b[7] && a[8] == b[8] && a[9] == b[9]
  {
    assert a == b <==> forall i :: 0 <= i < 10 ==> a[i] == b[i];
  }

  lemma {:induction false} ElevenValues(a: seq<nat>, b: seq<nat>)
    requires |a| == |b| == 11
    ensures a == b <==>
                     && a[0] == b[0] && a[1] == b[1] && a[2] == b[2] && a[3] == b[3] && a[4] == b[4] && a[5] == b[5]
                     && a[6] == b[6] && a[7] == b[7] && a[8] == b[8] && a[9] == b[9] && a[10] == b[10]
  {
    assert a == b <==> forall i :: 0 <= i < 11 ==> a[i] == b[i];
  }

  lemma {:induction false} HeaderValuesAre(h: Header)
    ensures var v := HeaderValues(h);
            && |v| == 8
            && v[0] == PACKET_MAGIC && v[1] == PACKET_VERSION && v[2] == PACKET_HEADER_SIZE && v[3] == h.operationCode
            && v[4] == h.routeKind && v[5] == h.requestId && v[6] == h.payloadSize && v[7] == 0
  {
  }

  lemma {:induction false} TouchValuesAre(e: TouchEvent)
    requires FitsWire(e)
    ensures var v := TouchValues(e);
            && |v| == 11
            && v[0] == e.targetSlot && v[1] == e.action && v[2] == e.pointerId && v[3] == 0
            && v[4] == e.inputEpoch && v[5] == e.sequence && v[6] == e.x && v[7] == e.y
            && v[8] == e.pressure && v[9] == e.touchMajor && v[10] == 0
  {
  }

  lemma {:induction false} ResponseValuesAre(r: BindResponse)
    ensures var v := ResponseValues(r);
            && |v| == 10
            && v[0] == r.result && v[1] == r.targetSlot && v[2] == r.displayPort && v[3] == 0
            && v[4] == r.streamId && v[5] == r.inputEpoch && v[6] == r.logicalWidth && v[7] == r.logicalHeight
            && v[8] == r.rotation && v[9] == 0
  {
  }

  /** Five fields pack to the bytes of one after the other. */
  lemma {:induction false} PackFive(v: seq<nat>, l: Layout)
    requires |v| == |l| == 5 && Fits(v, l)
    ensures Pack(v, l) == ToBytes(v[0], l[0]) + ToBytes(v[1], l[1]) + ToBytes(v[2], l[2]) + ToBytes(v[3], l[3])
                          + ToBytes(v[4], l[4])
  {
    assert Pack(v[..0], l[..0]) == [];
    assert v[..5] == v && l[..5] == l;
    hide Pack;
    hide Fits;
    hide ToBytes;
    PackStep(v, l, 0); PackStep(v, l, 1); PackStep(v, l, 2); PackStep(v, l, 3); PackStep(v, l, 4);
    assert Pack(v[..1], l[..1]) == ToBytes(v[0], l[0]);
  }

  /** Ten fields pack to the bytes of one after the other. */
  lemma {:induction false} PackTen(v: seq<nat>, l: Layout)
    requires |v| == |l| == 10 && Fits(v, l)
    ensures Pack(v, l) == ToBytes(v[0], l[0]) + ToBytes(v[1], l[1]) + ToBytes(v[2], l[2]) + ToBytes(v[3], l[3])
                          + ToBytes(v[4], l[4]) + ToBytes(v[5], l[5]) + ToBytes(v[6], l[6]) + ToBytes(v[7], l[7])
                          + ToBytes(v[8], l[8]) + ToBytes(v[9], l[9])
  {
    assert Pack(v[..0], l[..0]) == [];
    assert v[..10] == v && l[..10] == l;
    hide Pack;
    hide Fits;
    hide ToBytes;
    PackStep(v, l, 0); PackStep(v, l, 1); PackStep(v, l, 2); PackStep(v, l, 3); PackStep(v, l, 4);
    PackStep(v, l, 5); PackStep(v, l, 6); PackStep(v, l, 7); PackStep(v, l, 8); PackStep(v, l, 9);
    assert Pack(v[..1], l[..1]) == ToBytes(v[0], l[0]);
  }

  ghost predicate HeaderLayout(l: Layout) {
    |l| == 8 && l[0] == 4 && l[1] == l[2] == l[3] == l[4] == 2 && l[5] == l[6] == l[7] == 4
  }

  lemma {:induction false} HeaderOffsets(l: Layout)
    requires HeaderLayout(l)
    ensures Size(l[..0]) == 0 && Size(l[..1]) == 4 && Size(l[..2]) == 6 && Size(l[..3]) == 8 && Size(l[..4]) == 10
    ensures Size(l[..5]) == 12 && Size(l[..6]) == 16 && Size(l[..7]) == 20 && Size(l[..8]) == 24
    ensures Size(l) == 24
  {
    assert Size(l[..0]) == 0;
    assert l[..8] == l;
    hide Size;
    SizePrefix(l, 0); SizePrefix(l, 1); SizePrefix(l, 2); SizePrefix(l, 3); SizePrefix(l, 4);
    SizePrefix(l, 5); SizePrefix(l, 6); SizePrefix(l, 7);
  }

  lemma {:induction false} HeaderFields(b: seq<byte>, l: Layout)
    requires HeaderLayout(l) && |b| == 24
    ensures Size(l) == 24 && |Unpack(b, l)| == 8
    ensures Unpack(b, l)[0] == FromBytes(b[0..4])
    ensures Unpack(b, l)[1] == FromBytes(b[4..6])
    ensures Unpack(b, l)[2] == FromBytes(b[6..8])
    ensures Unpack(b, l)[3] == FromBytes(b[8..10])
    ensures Unpack(b, l)[4] == FromBytes(b[10..12])
    ensures Unpack(b, l)[5] == FromBytes(b[12..16])
    ensures Unpack(b, l)[6] == FromBytes(b[16..20])
    ensures Unpack(b, l)[7] == FromBytes(b[20..24])
  {
    HeaderOffsets(l);
    hide Size;
    hide FromBytes;
    UnpackAt(b, l, 0); UnpackAt(b, l, 1); UnpackAt(b, l, 2); UnpackAt(b, l, 3); UnpackAt(b, l, 4);
    UnpackAt(b, l, 5); UnpackAt(b, l, 6); UnpackAt(b, l, 7);
  }

  ghost predicate BindLayout(l: Layout) {
    |l| == 5 && l[0] == l[1] == l[2] == l[3] == 1 && l[4] == 4
  }

  lemma {:induction false} BindOffsets(l: Layout)
    requires BindLayout(l)
    ensures Size(l[..0]) == 0 && Size(l[..1]) == 1 && Size(l[..2]) == 2 && Size(l[..3]) == 3 && Size(l[..4]) == 4
    ensures Size(l[..5]) == 8
    ensures Size(l) == 8
  {
    assert Size(l[..0]) == 0;
    assert l[..5] == l;
    hide Size;
    SizePrefix(l, 0); SizePrefix(l, 1); SizePrefix(l, 2); SizePrefix(l, 3); SizePrefix(l, 4);
  }

  lemma {:induction false} BindFields(b: seq<byte>, l: Layout)
    requires BindLayout(l) && |b| == 8
    ensures Size(l) == 8 && |Unpack(b, l)| == 5
    ensures Unpack(b, l)[0] == b[0]
    ensures Unpack(b, l)[1] == b[1]
    ensures Unpack(b, l)[2] == b[2]
    ensures Unpack(b, l)[3] == b[3]
    ensures Unpack(b, l)[4] == FromBytes(b[4..8])
  {
    BindOffsets(l);
    OneByte(b[0]);
    assert b[0..1] == [b[0]];
    OneByte(b[1]);
    assert b[1..2] == [b[1]];
    OneByte(b[2]);
    assert b[2..3] == [b[2]];
    OneByte(b[3]);
    assert b[3..4] == [b[3]];
    hide Size;
    hide FromBytes;
    UnpackAt(b, l, 0); UnpackAt(b, l, 1); UnpackAt(b, l, 2); UnpackAt(b, l, 3); UnpackAt(b, l, 4);
  }

  ghost predicate InvalidatedLayout(l: Layout) {
    |l| == 5 && l[0] == l[1] == 1 && l[2] == 2 && l[3] == l[4] == 4
  }

  lemma {:induction false} InvalidatedOffsets(l: Layout)
    requires InvalidatedLayout(l)
    ensures Size(l[..0]) == 0 && Size(l[..1]) == 1 && Size(l[..2]) == 2 && Size(l[..3]) == 4 && Size(l[..4]) == 8
    ensures Size(l[..5]) == 12
    ensures Size(l) == 12
  {
    assert Size(l[..0]) == 0;
    assert l[..5] == l;
    hide Size;
    SizePrefix(l, 0); SizePrefix(l, 1); SizePrefix(l, 2); SizePrefix(l, 3); SizePrefix(l, 4);
  }

  lemma {:induction false} InvalidatedFields(b: seq<byte>, l: Layout)
    requires InvalidatedLayout(l) && |b| == 12
    ensures Size(l) == 12 && |Unpack(b, l)| == 5
    ensures Unpack(b, l)[0] == b[0]
    ensures Unpack(b, l)[1] == b[1]
    ensures Unpack(b, l)[2] == FromBytes(b[2..4])
    ensures Unpack(b, l)[3] == FromBytes(b[4..8])
    ensures Unpack(b, l)[4] == FromBytes(b[8..12])
  {
    InvalidatedOffsets(l);
    OneByte(b[0]);
    assert b[0..1] == [b[0]];
    OneByte(b[1]);
    assert b[1..2] == [b[1]];
    hide Size;
    hide FromBytes;
    UnpackAt(b, l, 0); UnpackAt(b, l, 1); UnpackAt(b, l, 2); UnpackAt(b, l, 3); UnpackAt(b, l, 4);
  }

  ghost predicate TouchLayout(l: Layout) {
    |l| == 11 && l[0] == l[1] == l[2] == l[3] == 1 && l[4] == l[5] == 4 && l[6] == l[7] == l[8] == l[9] == 2 && l[10] == 4
  }

  lemma {:induction false} TouchOffsets(l: Layout)
    requires TouchLayout(l)
    ensures Size(l[..0]) == 0 && Size(l[..1]) == 1 && Size(l[..2]) == 2 && Size(l[..3]) == 3 && Size(l[..4]) == 4
    ensures Size(l[..5]) == 8 && Size(l[..6]) == 12 && Size(l[..7]) == 14 && Size(l[..8]) == 16 && Size(l[..9]) == 18
    ensures Size(l[..10]) == 20 && Size(l[..11]) == 24
    ensures Size(l) == 24
  {
    assert Size(l[..0]) == 0;
    assert l[..11] == l;
    hide Size;
    SizePrefix(l, 0); SizePrefix(l, 1); SizePrefix(l, 2); SizePrefix(l, 3); SizePrefix(l, 4);
    SizePrefix(l, 5); SizePrefix(l, 6); SizePrefix(l, 7); SizePrefix(l, 8); SizePrefix(l, 9);
    SizePrefix(l, 10);
  }

  lemma {:induction false} TouchFields(b: seq<byte>, l: Layout)
    requires TouchLayout(l) && |b| == 24
    ensures Size(l) == 24 && |Unpack(b, l)| == 11
    ensures Unpack(b, l)[0] == b[0]
    ensures Unpack(b, l)[1] == b[1]
    ensures Unpack(b, l)[2] == b[2]
    ensures Unpack(b, l)[3] == b[3]
    ensures Unpack(b, l)[4] == FromBytes(b[4..8])
    ensures Unpack(b, l)[5] == FromBytes(b[8..12])
    ensures Unpack(b, l)[6] == FromBytes(b[12..14])
    ensures Unpack(b, l)[7] == FromBytes(b[14..16])
    ensures Unpack(b, l)[8] == FromBytes(b[16..18])
    ensures Unpack(b, l)[9] == FromBytes(b[18..20])
    ensures Unpack(b, l)[10] == FromBytes(b[20..24])
  {
    TouchOffsets(l);
    OneByte(b[0]);
    assert b[0..1] == [b[0]];
    OneByte(b[1]);
    assert b[1..2] == [b[1]];
    OneByte(b[2]);
    assert b[2..3] == [b[2]];
    OneByte(b[3]);
    assert b[3..4] == [b[3]];
    hide Size;
    hide FromBytes;
    UnpackAt(b, l, 0); UnpackAt(b, l, 1); UnpackAt(b, l, 2); UnpackAt(b, l, 3); UnpackAt(b, l, 4);
    UnpackAt(b, l, 5); UnpackAt(b, l, 6); UnpackAt(b, l, 7); UnpackAt(b, l, 8); UnpackAt(b, l, 9);
    UnpackAt(b, l, 10);
  }

  ghost predicate ResponseLayout(l: Layout) {
    && |l| == 10 && l[0] == 4 && l[1] == l[2] == 1 && l[3] == 2 && l[4] == l[5] == l[6] == l[7] == 4
    && l[8] == l[9] == 2
  }

  lemma {:induction false} ResponseOffsets(l: Layout)
    requires ResponseLayout(l)
    ensures Size(l[..0]) == 0 && Size(l[..1]) == 4 && Size(l[..2]) == 5 && Size(l[..3]) == 6 && Size(l[..4]) == 8
    ensures Size(l[..5]) == 12 && Size(l[..6]) == 16 && Size(l[..7]) == 20 && Size(l[..8]) == 24 && Size(l[..9]) == 26
    ensures Size(l[..10]) == 28
    ensures Size(l) == 28
  {
    assert Size(l[..0]) == 0;
    assert l[..10] == l;
    hide Size;
    SizePrefix(l, 0); SizePrefix(l, 1); SizePrefix(l, 2); SizePrefix(l, 3); SizePrefix(l, 4);
    SizePrefix(l, 5); SizePrefix(l, 6); SizePrefix(l, 7); SizePrefix(l, 8); SizePrefix(l, 9);
  }

  lemma {:induction false} ResponseFields(b: seq<byte>, l: Layout)
    requires ResponseLayout(l) && |b| == 28
    ensures Size(l) == 28 && |Unpack(b, l)| == 10
    ensures Unpack(b, l)[0] == FromBytes(b[0..4])
    ensures Unpack(b, l)[1] == b[4]
    ensures Unpack(b, l)[2] == b[5]
    ensures Unpack(b, l)[3] == FromBytes(b[6..8])
    ensures Unpack(b, l)[4] == FromBytes(b[8..12])
    ensures Unpack(b, l)[5] == FromBytes(b[12..16])
    ensures Unpack(b, l)[6] == FromBytes(b[16..20])
    ensures Unpack(b, l)[7] == FromBytes(b[20..24])
    ensures Unpack(b, l)[8] == FromBytes(b[24..26])
    ensures Unpack(b, l)[9] == FromBytes(b[26..28])
  {
    ResponseOffsets(l);
    OneByte(b[4]);
    assert b[4..5] == [b[4]];
    OneByte(b[5]);
    assert b[5..6] == [b[5]];
    hide Size;
    hide FromBytes;
    UnpackAt(b, l, 0); UnpackAt(b, l, 1); UnpackAt(b, l, 2); UnpackAt(b, l, 3); UnpackAt(b, l, 4);
    UnpackAt(b, l, 5); UnpackAt(b, l, 6); UnpackAt(b, l, 7); UnpackAt(b, l, 8); UnpackAt(b, l, 9);
  }

  lemma {:induction false} TwoZeroBytes(b: seq<byte>)
    requires |b| == 2
    ensures FromBytes(b) == 0 <==> b[0] == 0 && b[1] == 0
  {
    assert FromBytes(b) == FromBytes(b[..1]) * 256 + b[1];
    assert b[..1] == [b[0]];
    OneByte(b[0]);
  }
}

/** The server's side, with Java's signed integers. */
module JavaOperationProtocol {
  import opened Bytes
  import opened Options
  import opened InputStateMachine
  import opened Fdo1

  type Int = x: int | -0x8000_0000 <= x <= 0x7fff_ffff

  function GetInt(b: seq<byte>, offset: nat): Int
    requires offset + 4 <= |b|
  {
    Pow256Values();
    var v := FromBytes(b[offset..offset + 4]);
    if v >= 0x8000_0000 then v - 0x1_0000_0000 else v
  }

  function GetShort(b: seq<byte>, offset: nat): int
    requires offset + 2 <= |b|
  {
    var v := FromBytes(b[offset..offset + 2]);
    if v >= 0x8000 then v - 0x1_0000 else v
  }

  function ToUnsignedLong(v: Int): u32 { v % 0x1_0000_0000 }

  function ToUnsignedInt(v: int): u16 { v % 0x1_0000 }

  predicate IsKnownRoute(routeKind: u16) {
    routeKind == ROUTE_REQUEST || routeKind == ROUTE_RESPONSE || routeKind == ROUTE_EVENT || routeKind == ROUTE_ERROR
  }

  function ReadHeader(input: seq<byte>): (r: Option<Header>)
    requires |input| == PACKET_HEADER_SIZE
  {
    Pow256Values();
    if GetInt(input, 0) != PACKET_MAGIC then None
    else if ToUnsignedInt(GetShort(input, 4)) != PACKET_VERSION then None
    else if ToUnsignedInt(GetShort(input, 6)) != PACKET_HEADER_SIZE then None
    else
      var operationCode := ToUnsignedInt(GetShort(input, 8));
      var routeKind := ToUnsignedInt(GetShort(input, 10));
      var requestId := ToUnsignedLong(GetInt(input, 12));
      var payloadSize := GetInt(input, 16);
      if GetInt(input, 20) != 0 then None
      else if !IsKnownRoute(routeKind) then None
      else if (routeKind == ROUTE_EVENT) != (requestId == 0) then None
      else if payloadSize < 0 || payloadSize > MAXIMUM_PAYLOAD_SIZE then None
      else Some(Header(operationCode, routeKind, requestId, payloadSize))
  }

  function ParseBindRequest(payload: seq<byte>): Option<BindRequest> {
    if |payload| != BIND_REQUEST_SIZE || payload[3] != 0 then None
    else
      var b := BindRequest(payload[0], payload[1], payload[2], ToUnsignedLong(GetInt(payload, 4)));
      if b.mode != MODE_EXCLUSIVE || b.streamId == 0 then None else Some(b)
  }

  function ParseTouchEvent(payload: seq<byte>): Option<TouchEvent> {
    if |payload| != TOUCH_EVENT_SIZE || payload[3] != 0 || GetInt(payload, 20) != 0 then None
    else
      var e := TouchEvent(
        payload[0], payload[1], payload[2], ToUnsignedLong(GetInt(payload, 4)), ToUnsignedLong(GetInt(payload, 8)),
        ToUnsignedInt(GetShort(payload, 12)), ToUnsignedInt(GetShort(payload, 14)),
        ToUnsignedInt(GetShort(payload, 16)), ToUnsignedInt(GetShort(payload, 18)));
      if e.action < ACTION_DOWN || e.action > ACTION_CANCEL || e.pointerId > 31 || e.inputEpoch == 0 || e.sequence == 0
      then None
      else if (e.action == ACTION_DOWN || e.action == ACTION_MOVE) && e.pressure == 0 then None
      else if e.action == ACTION_CANCEL
              && (e.pointerId != 0 || e.x != 0 || e.y != 0 || e.pressure != 0 || e.touchMajor != 0)
      then None
      else Some(e)
  }

  /** Narrowing casts keep the low bytes. */
  function PutInt(v: int): (bytes: seq<byte>)
    ensures |bytes| == 4
  {
    Pow256Values();
    ToBytes(v % 0x1_0000_0000, 4)
  }

  function PutShort(v: int): (bytes: seq<byte>)
    ensures |bytes| == 2
  {
    Pow256Values();
    ToBytes(v % 0x1_0000, 2)
  }

  function Put(v: int): seq<byte> { [v % 0x100] }

  function ResultCode(result: OperationResult): int {
    match result
    case Applied => 0
    case Unchanged => 1
    case InvalidTarget => 2
    case TargetBusy => 3
    case UnknownStream => 4
    case StaleEpoch => 5
    case InvalidState => 6
    case InjectionFailed => 7
  }

  function BindResponseBytes(result: int, targetSlot: int, displayPort: int, streamId: int, inputEpoch: int,
                             logicalWidth: int, logicalHeight: int, rotation: int): (bytes: seq<byte>)
    ensures |bytes| == BIND_RESPONSE_SIZE
  {
    PutInt(result) + Put(targetSlot) + Put(displayPort) + PutShort(0) + PutInt(streamId) + PutInt(inputEpoch)
    + PutInt(logicalWidth) + PutInt(logicalHeight) + PutShort(rotation) + PutShort(0)
  }

  function ReasonCode(reason: Reason): int {
    match reason
    case DisplayRemoved => 1
    case GeometryChanged => 2
  }

  function TargetInvalidatedBytes(targetSlot: int, reason: int, streamId: int, inputEpoch: int): (bytes: seq<byte>)
    ensures |bytes| == TARGET_INVALIDATED_SIZE
  {
    Put(targetSlot) + Put(reason) + PutShort(0) + PutInt(streamId) + PutInt(inputEpoch)
  }

  /** The payload of the event sent for an invalidated target. */
  function NoticeBytes(notice: InvalidatedTarget): seq<byte> {
    TargetInvalidatedBytes(notice.targetSlot, ReasonCode(notice.reason), notice.streamId, notice.inputEpoch)
  }

  /** The new state of the state machine and the answer to a well-formed bind request. */
  function HandleBind(s: State, request: BindRequest, descriptor: Option<TargetDescriptor>, env: Environment)
    : (State, seq<byte>)
  {
    var (s', outcome) := BindTarget(s, request.targetSlot, request.mode, request.streamId, descriptor, env);
    var successful := (outcome.result == Applied || outcome.result == Unchanged) && outcome.descriptor.Some?;
    (s', BindResponseBytes(ResultCode(outcome.result), request.targetSlot, request.displayPort, request.streamId,
                           outcome.inputEpoch,
                           if successful then outcome.descriptor.value.logicalWidth else 0,
                           if successful then outcome.descriptor.value.logicalHeight else 0,
                           if successful then outcome.descriptor.value.rotation else 0))
  }
}

/** The client library's side, with C++'s unsigned integers. */
module CppOperationProtocol {
  import opened Bytes
  import opened Options
  import opened InputStateMachine
  import opened Fdo1

  function ReadUint16(b: seq<byte>, offset: nat): u16
    requires offset + 2 <= |b|
  {
    Pow256Values();
    FromBytes(b[offset..offset + 2])
  }

  function ReadUint32(b: seq<byte>, offset: nat): u32
    requires offset + 4 <= |b|
  {
    Pow256Values();
    FromBytes(b[offset..offset + 4])
  }

  /** The plane, kind and flag bits of a route, each picked out by its mask. */
  predicate IsKnownPacketKind(routeKind: u16) {
    && routeKind / 0x1000 == 2 && routeKind % 0x100 == 0
    && var kind := routeKind / 0x100 % 0x10; kind == 0 || kind == 1 || kind == 2 || kind == 3
  }

  predicate HasValidRequestId(routeKind: u16, requestId: u32) {
    var isEvent := routeKind / 0x1000 == 2 && routeKind / 0x100 % 0x10 == 2 && routeKind % 0x100 == 0;
    if isEvent then requestId == 0 else requestId != 0
  }

  function ParseOperationPacketHeader(input: seq<byte>): Option<Header>
    requires |input| == PACKET_HEADER_SIZE
  {
    if ReadUint32(input, 0) != PACKET_MAGIC then None
    else if ReadUint16(input, 4) != PACKET_VERSION then None
    else if ReadUint16(input, 6) != PACKET_HEADER_SIZE then None
    else if ReadUint32(input, 20) != 0 then None
    else
      var h := Header(ReadUint16(input, 8), ReadUint16(input, 10), ReadUint32(input, 12), ReadUint32(input, 16));
      if !IsKnownPacketKind(h.routeKind) then None
      else if !HasValidRequestId(h.routeKind, h.requestId) then None
      else if h.payloadSize > MAXIMUM_PAYLOAD_SIZE then None
      else Some(h)
  }

  function ParseBindInputTargetRequest(payload: seq<byte>): Option<BindRequest> {
    if |payload| != BIND_REQUEST_SIZE || payload[3] != 0 then None
    else
      var b := BindRequest(payload[0], payload[1], payload[2], ReadUint32(payload, 4));
      if b.mode != MODE_EXCLUSIVE || b.streamId == 0 then None else Some(b)
  }

  predicate IsValidTouchEvent(e: TouchEvent) {
    if !(e.action == 0 || e.action == 1 || e.action == 2 || e.action == 3)
       || e.pointerId > MAXIMUM_POINTER_ID || e.inputEpoch == 0 || e.sequence == 0 then false
    else if e.action == ACTION_DOWN || e.action == ACTION_MOVE then e.pressure != 0
    else if e.action == ACTION_CANCEL then
      e.pointerId == 0 && e.x == 0 && e.y == 0 && e.pressure == 0 && e.touchMajor == 0
    else true
  }

  function ParseTouchEvent(payload: seq<byte>): Option<TouchEvent> {
    if |payload| != TOUCH_EVENT_SIZE || payload[3] != 0 || ReadUint32(payload, 20) != 0 then None
    else
      var e := TouchEvent(payload[0], payload[1], payload[2], ReadUint32(payload, 4), ReadUint32(payload, 8),
                          ReadUint16(payload, 12), ReadUint16(payload, 14), ReadUint16(payload, 16), ReadUint16(payload, 18));
      if IsValidTouchEvent(e) then Some(e) else None
  }

  /** The library's name for a result. */
  function ResultOf(code: u32): Option<OperationResult> {
    if code == 0 then Some(Applied)
    else if code == 1 then Some(Unchanged)
    else if code == 2 then Some(InvalidTarget)
    else if code == 3 then Some(TargetBusy)
    else if code == 4 then Some(UnknownStream)
    else if code == 5 then Some(StaleEpoch)
    else if code == 6 then Some(InvalidState)
    else if code == 7 then Some(InjectionFailed)
    else None
  }

  predicate IsKnownRotation(rotation: u16) {
    rotation == 0 || rotation == 90 || rotation == 180 || rotation == 270
  }

  predicate IsValidBindResponse(r: BindResponse) {
    if ResultOf(r.result).None? || !IsKnownRotation(r.rotation) then false
    else if r.result == 0 || r.result == 1 then
      r.streamId != 0 && r.inputEpoch != 0 && r.logicalWidth != 0 && r.logicalHeight != 0
    else r.inputEpoch == 0 && r.logicalWidth == 0 && r.logicalHeight == 0 && r.rotation == 0
  }

  function ParseBindInputTargetResponse(payload: seq<byte>): Option<BindResponse> {
    if |payload| != BIND_RESPONSE_SIZE || payload[6] != 0 || payload[7] != 0 || ReadUint16(payload, 26) != 0 then None
    else
      var r := BindResponse(ReadUint32(payload, 0), payload[4], payload[5], ReadUint32(payload, 8), ReadUint32(payload, 12),
                            ReadUint32(payload, 16), ReadUint32(payload, 20), ReadUint16(payload, 24));
      if IsValidBindResponse(r) then Some(r) else None
  }

  predicate IsKnownInvalidationReason(reason: u8) { reason == 1 || reason == 2 }

  function ParseTargetInvalidatedEvent(payload: seq<byte>): Option<TargetInvalidated> {
    if |payload| != TARGET_INVALIDATED_SIZE || ReadUint16(payload, 2) != 0 then None
    else
      var e := TargetInvalidated(payload[0], payload[1], ReadUint32(payload, 4), ReadUint32(payload, 8));
      if !IsKnownInvalidationReason(e.reason) || e.streamId == 0 || e.inputEpoch == 0 then None else Some(e)
  }
}

/** Server and library understand each other. */
module OperationAgreement {
  import opened Bytes
  import opened Options
  import opened InputStateMachine
  import opened Fdo1
  import Java = JavaOperationProtocol
  import Cpp = CppOperationProtocol
  import opened GestureStream
  import opened InputRuns

  /** The signed and the unsigned reading of a field name the same number. */
  lemma {:induction false} ReadingsAgree(b: seq<byte>, offset: nat)
    ensures offset + 4 <= |b| ==>
              && Java.ToUnsignedLong(Java.GetInt(b, offset)) == Cpp.ReadUint32(b, offset)
              && (Java.GetInt(b, offset) < 0 <==> Cpp.ReadUint32(b, offset) >= 0x8000_0000)
              && (Java.GetInt(b, offset) >= 0 ==> Java.GetInt(b, offset) == Cpp.ReadUint32(b, offset))
    ensures offset + 2 <= |b| ==> Java.ToUnsignedInt(Java.GetShort(b, offset)) == Cpp.ReadUint16(b, offset)
  {
    Pow256Values();
    hide FromBytes;
  }

  lemma {:induction false} RoutesAgree(routeKind: u16, requestId: u32)
    ensures Java.IsKnownRoute(routeKind) == Cpp.IsKnownPacketKind(routeKind)
    ensures Java.IsKnownRoute(routeKind) ==>
              (Cpp.HasValidRequestId(routeKind, requestId) <==> (routeKind == ROUTE_EVENT <==> requestId == 0))
  {
  }

  /** Both sides accept the same headers and read the same fields: exactly the well-formed ones, in
      their one encoding. */
  lemma {:induction false} HeadersAgree(input: seq<byte>, h: Header)
    requires |input| == PACKET_HEADER_SIZE
    ensures Java.ReadHeader(input) == Cpp.ParseOperationPacketHeader(input)
    ensures Cpp.ParseOperationPacketHeader(input) == Some(h) <==> IsWellFormedHeader(h) && EncodeHeader(h) == input
  {
    ReadingsAgree(input, 0); ReadingsAgree(input, 4); ReadingsAgree(input, 6); ReadingsAgree(input, 8);
    ReadingsAgree(input, 10); ReadingsAgree(input, 12); ReadingsAgree(input, 16); ReadingsAgree(input, 20);
    RoutesAgree(Cpp.ReadUint16(input, 10), Cpp.ReadUint32(input, 12));
    HeaderFields(input, HEADER_LAYOUT);
    HeaderFits(h);
    PacksTo(input, HeaderValues(h), HEADER_LAYOUT);
    HeaderValuesAre(h);
    EightValues(Unpack(input, HEADER_LAYOUT), HeaderValues(h));
    hide HeaderValues;
    hide Fits;
    hide FromBytes;
    hide Pack;
    hide Unpack;
    hide Size;
    hide Java.GetInt;
    hide Java.GetShort;
    hide Java.ToUnsignedLong;
    hide Java.ToUnsignedInt;
    hide Java.IsKnownRoute;
    hide Cpp.IsKnownPacketKind;
    hide Cpp.HasValidRequestId;
  }

  /** Both sides accept the same bind requests and read the same fields. */
  lemma {:induction false} BindRequestsAgree(payload: seq<byte>, b: BindRequest)
    ensures Java.ParseBindRequest(payload) == Cpp.ParseBindInputTargetRequest(payload)
    ensures Cpp.ParseBindInputTargetRequest(payload) == Some(b) <==> IsWellFormedBind(b) && EncodeBind(b) == payload
  {
    ReadingsAgree(payload, 4);
    BindOffsets(BIND_LAYOUT);
    if |payload| == BIND_REQUEST_SIZE { BindFields(payload, BIND_LAYOUT); }
    BindFits(b);
    PacksTo(payload, BindValues(b), BIND_LAYOUT);
    hide FromBytes;
    hide Pack;
    hide Unpack;
    hide Size;
    hide Java.GetInt;
    hide Java.ToUnsignedLong;
  }

  /** Both sides accept the same touch events and read the same fields. */
  lemma {:induction false} TouchesAgree(payload: seq<byte>, e: TouchEvent)
    ensures Java.ParseTouchEvent(payload) == Cpp.ParseTouchEvent(payload)
    ensures Cpp.ParseTouchEvent(payload) == Some(e) <==> IsWellFormedTouch(e) && EncodeTouch(e) == payload
  {
    ReadingsAgree(payload, 4); ReadingsAgree(payload, 8); ReadingsAgree(payload, 12); ReadingsAgree(payload, 14);
    ReadingsAgree(payload, 16); ReadingsAgree(payload, 18); ReadingsAgree(payload, 20);
    TouchOffsets(TOUCH_LAYOUT);
    if |payload| == TOUCH_EVENT_SIZE { TouchFields(payload, TOUCH_LAYOUT); }
    if FitsWire(e) {
      TouchFits(e);
      PacksTo(payload, TouchValues(e), TOUCH_LAYOUT);
      TouchValuesAre(e);
      if |payload| == TOUCH_EVENT_SIZE { ElevenValues(Unpack(payload, TOUCH_LAYOUT), TouchValues(e)); }
    }
    hide TouchValues;
    hide Fits;
    hide FromBytes;
    hide Pack;
    hide Unpack;
    hide Size;
    hide Java.GetInt;
    hide Java.GetShort;
    hide Java.ToUnsignedLong;
    hide Java.ToUnsignedInt;
  }

  lemma {:induction false} ValidResponsesAgree(r: BindResponse)
    ensures Cpp.IsValidBindResponse(r) <==> IsWellFormedResponse(r)
  {
  }

  /** The library accepts exactly the encodings of well-formed bind responses. */
  lemma {:induction false} ResponsesParse(payload: seq<byte>, r: BindResponse)
    ensures Cpp.ParseBindInputTargetResponse(payload) == Some(r) <==> IsWellFormedResponse(r) && EncodeResponse(r) == payload
  {
    ValidResponsesAgree(r);
    hide Cpp.IsValidBindResponse;
    hide IsWellFormedResponse;
    ResponseOffsets(RESPONSE_LAYOUT);
    if |payload| == BIND_RESPONSE_SIZE {
      ResponseFields(payload, RESPONSE_LAYOUT);
      TwoZeroBytes(payload[6..8]);
    }
    ResponseFits(r);
    PacksTo(payload, ResponseValues(r), RESPONSE_LAYOUT);
    ResponseValuesAre(r);
    if |payload| == BIND_RESPONSE_SIZE { TenValues(Unpack(payload, RESPONSE_LAYOUT), ResponseValues(r)); }
    hide ResponseValues;
    hide Fits;
    hide FromBytes;
    hide Pack;
    hide Unpack;
    hide Size;
  }

  // ---------- the answer to a bind request ----------

  /** A descriptor made of Java ints. */
  predicate IsJavaDescriptor(d: TargetDescriptor) {
    -0x8000_0000 <= d.logicalWidth <= 0x7fff_ffff && -0x8000_0000 <= d.logicalHeight <= 0x7fff_ffff
  }

  /** The epochs a reachable state machine hands out fit the wire and are not zero. */
  lemma {:induction false} OutcomeFitsWire(s: State, request: BindRequest, descriptor: Option<TargetDescriptor>,
                                            env: Environment)
    requires Inv(s) && IsWellFormedBind(request)
    ensures var outcome := BindTarget(s, request.targetSlot, request.mode, request.streamId, descriptor, env).1;
            && outcome.descriptor == descriptor && 0 <= outcome.inputEpoch <= EPOCHS
            && (outcome.result == Applied || outcome.result == Unchanged || outcome.result == InvalidTarget
                || outcome.result == TargetBusy)
            && (outcome.result == Applied || outcome.result == Unchanged ==>
                  descriptor.Some? && IsUsable(descriptor.value) && outcome.inputEpoch > 0)
            && (outcome.result != Applied && outcome.result != Unchanged ==> outcome.inputEpoch == 0)
  {
    hide LogMatches;
    hide CancelPointers;
    assert GoodSlot(s, request.targetSlot);
  }

  lemma {:induction false} PutIntIs(v: u32)
    ensures v < Pow256(4) && Java.PutInt(v) == ToBytes(v, 4)
  {
    Pow256Values();
    hide Pow256;
    hide ToBytes;
    assert v % 0x1_0000_0000 == v;
  }

  lemma {:induction false} PutShortIs(v: u16)
    ensures v < Pow256(2) && Java.PutShort(v) == ToBytes(v, 2)
  {
    Pow256Values();
    hide Pow256;
    hide ToBytes;
    assert v % 0x1_0000 == v;
  }

  lemma {:induction false} PutIs(v: u8)
    ensures v < Pow256(1) && Java.Put(v) == ToBytes(v, 1)
  {
    Pow256Values();
    hide Pow256;
    assert v % 0x100 == v && v / 256 == 0;
    assert ToBytes(0, 0) == [];
  }

  /** The bytes the server writes, one field after the other, are the encoding of the answer. */
  lemma {:induction false} ResponseBytesEncode(r: BindResponse)
    ensures Java.BindResponseBytes(r.result, r.targetSlot, r.displayPort, r.streamId, r.inputEpoch, r.logicalWidth,
                                   r.logicalHeight, r.rotation) == EncodeResponse(r)
  {
    ResponseFits(r);
    PackTen(ResponseValues(r), RESPONSE_LAYOUT);
    ResponseValuesAre(r);
    hide ResponseValues;
    hide Pack;
    hide Fits;
    PutIntIs(r.result); PutIs(r.targetSlot); PutIs(r.displayPort); PutShortIs(0);
    PutIntIs(r.streamId); PutIntIs(r.inputEpoch); PutIntIs(r.logicalWidth);
    PutIntIs(r.logicalHeight); PutShortIs(r.rotation);
    hide Pow256;
    hide ToBytes;
    hide Java.PutInt;
    hide Java.PutShort;
    hide Java.Put;
  }

  /** Both sides give the results the same numbers. */
  lemma {:induction false} ResultsAgree(result: OperationResult)
    ensures 0 <= Java.ResultCode(result) <= 7 && Cpp.ResultOf(Java.ResultCode(result)) == Some(result)
  {
  }

  /** The library reads the outcome of a bind from its answer. */
  ghost predicate IsUnderstood(request: BindRequest, outcome: BindOutcome, descriptor: Option<TargetDescriptor>,
                               answer: BindResponse)
  {
    && Cpp.ResultOf(answer.result) == Some(outcome.result) && answer.targetSlot == request.targetSlot
    && answer.displayPort == request.displayPort && answer.streamId == request.streamId
    && answer.inputEpoch == outcome.inputEpoch
    && (outcome.result == Applied || outcome.result == Unchanged ==>
          && descriptor.Some? && answer.logicalWidth == descriptor.value.logicalWidth
          && answer.logicalHeight == descriptor.value.logicalHeight
          && answer.rotation == descriptor.value.rotation)
  }

  /** Every answer a reachable state machine gives to a well-formed bind request is accepted by the
      library, which reads the outcome from it. */
  lemma {:induction false} BindAnswersAreUnderstood(ops: seq<Operation>, payload: seq<byte>,
                                                    descriptor: Option<TargetDescriptor>, env: Environment)
    requires Java.ParseBindRequest(payload).Some? && (descriptor.Some? ==> IsJavaDescriptor(descriptor.value))
    ensures var s, request := Run(ops, env), Java.ParseBindRequest(payload).value;
            var outcome := BindTarget(s, request.targetSlot, request.mode, request.streamId, descriptor, env).1;
            && 0 <= outcome.inputEpoch <= EPOCHS
            && exists answer :: IsUnderstood(request, outcome, descriptor, answer)
                 && Cpp.ParseBindInputTargetResponse(Java.HandleBind(s, request, descriptor, env).1) == Some(answer)
  {
    RunKeeps(ops, env);
    var s, request := Run(ops, env), Java.ParseBindRequest(payload).value;
    assert IsWellFormedBind(request);
    hide Run;
    hide Java.ParseBindRequest;
    OutcomeFitsWire(s, request, descriptor, env);
    hide Inv;
    hide BindTarget;
    var answer := AnswerParses(s, request, descriptor, env);
  }

  lemma {:induction false} AnswerParses(s: State, request: BindRequest, descriptor: Option<TargetDescriptor>, env: Environment)
    returns (answer: BindResponse)
    requires Inv(s) && IsWellFormedBind(request) && (descriptor.Some? ==> IsJavaDescriptor(descriptor.value))
    ensures var outcome := BindTarget(s, request.targetSlot, request.mode, request.streamId, descriptor, env).1;
            && IsUnderstood(request, outcome, descriptor, answer)
            && Cpp.ParseBindInputTargetResponse(Java.HandleBind(s, request, descriptor, env).1) == Some(answer)
  {
    hide BindTarget;
    OutcomeFitsWire(s, request, descriptor, env);
    hide Inv;
    var outcome := BindTarget(s, request.targetSlot, request.mode, request.streamId, descriptor, env).1;
    ResultsAgree(outcome.result);
    hide Cpp.ResultOf;
    var code := Java.ResultCode(outcome.result);
    answer := if code <= 1 then
                BindResponse(code, request.targetSlot, request.displayPort, request.streamId, outcome.inputEpoch,
                             descriptor.value.logicalWidth, descriptor.value.logicalHeight, descriptor.value.rotation)
              else BindResponse(code, request.targetSlot, request.displayPort, request.streamId, 0, 0, 0, 0);
    ResponseBytesEncode(answer);
    hide EncodeResponse;
    hide Java.BindResponseBytes;
    var bytes := Java.HandleBind(s, request, descriptor, env).1;
    assert bytes == EncodeResponse(answer);
    hide Java.HandleBind;
    ResponsesParse(bytes, answer);
    hide Cpp.ParseBindInputTargetResponse;
  }

  // ---------- events for invalidated targets ----------

  /** The library accepts exactly the encodings of well-formed invalidation events. */
  lemma {:induction false} InvalidationsParse(payload: seq<byte>, e: TargetInvalidated)
    ensures Cpp.ParseTargetInvalidatedEvent(payload) == Some(e)
            <==> IsWellFormedInvalidation(e) && EncodeInvalidated(e) == payload
  {
    InvalidatedOffsets(INVALIDATED_LAYOUT);
    if |payload| == TARGET_INVALIDATED_SIZE { InvalidatedFields(payload, INVALIDATED_LAYOUT); }
    InvalidatedFits(e);
    PacksTo(payload, InvalidatedValues(e), INVALIDATED_LAYOUT);
    hide FromBytes;
    hide Pack;
    hide Unpack;
    hide Size;
  }

  lemma {:induction false} InvalidatedBytesEncode(e: TargetInvalidated)
    ensures Java.TargetInvalidatedBytes(e.targetSlot, e.reason, e.streamId, e.inputEpoch) == EncodeInvalidated(e)
  {
    InvalidatedFits(e);
    PackFive(InvalidatedValues(e), INVALIDATED_LAYOUT);
    hide Pack;
    hide Fits;
    PutIs(e.targetSlot); PutIs(e.reason); PutShortIs(0); PutIntIs(e.streamId); PutIntIs(e.inputEpoch);
    hide Pow256;
    hide ToBytes;
    hide Java.PutInt;
    hide Java.PutShort;
    hide Java.Put;
  }

  /** When the stream ids that were bound came from the wire, every event that a display change sends
      is accepted by the library, which reads from it the slot, stream, epoch and reason of a target
      the change removed. */
  lemma {:induction false} InvalidationsAreUnderstood(ops: seq<Operation>, displayId: int, current: Option<TargetDescriptor>,
                                                      env: Environment, notice: InvalidatedTarget)
    requires forall k :: 0 <= k < |ops| && ops[k].OpBind? ==> 0 <= ops[k].streamId < 0x1_0000_0000
    requires notice in DisplayChange(Run(ops, env), displayId, current, env).1
    ensures var s := Run(ops, env);
            && notice.targetSlot in s.targets
            && exists e ::
                 && Cpp.ParseTargetInvalidatedEvent(Java.NoticeBytes(notice)) == Some(e)
                 && e.targetSlot == notice.targetSlot && e.streamId == s.targets[notice.targetSlot].streamId
                 && e.inputEpoch == s.targets[notice.targetSlot].inputEpoch
                 && e.reason == if current.None? then 1 else 2
  {
    var s := Run(ops, env);
    RunKeeps(ops, env);
    DisplayChangesAreNotified(ops, displayId, current, env);
    var slot := notice.targetSlot;
    StreamsComeFromBinds(ops, env, slot);
    hide Run;
    hide DisplayChange;
    var t := s.targets[slot];
    assert GoodSlot(s, slot);
    hide Inv;
    var e := TargetInvalidated(slot, Java.ReasonCode(notice.reason), t.streamId, t.inputEpoch);
    InvalidatedBytesEncode(e);
    hide EncodeInvalidated;
    InvalidationsParse(Java.NoticeBytes(notice), e);
  }
}
