/** The payload of a request that replaces the external displays: a count and one padded record
    per display. */
module TopologyCodec {
  import opened Bytes
  import opened Options
  import opened Utf8

  const SNAPSHOT_HEADER_SIZE := 8
  const RECORD_FIXED_SIZE := 36
  const MAXIMUM_DISPLAYS := 64
  const MAXIMUM_REFRESH_RATES := 16
  const MAXIMUM_NAME_BYTES := 128
  const MAXIMUM_CONTROL_PAYLOAD_SIZE := 0x1_0000

  datatype Display = Display(
    displayId: u64, port: u8, width: u32, height: u32, dpi: u32, refreshRates: seq<u32>, activeRefreshRate: u32,
    name: seq<byte>)

  type Displays = seq<Display>

  ghost predicate IsSerializable(d: Display) {
    |d.refreshRates| <= MAXIMUM_REFRESH_RATES && |d.name| <= MAXIMUM_NAME_BYTES && IsText(d.name)
  }

  ghost predicate AllSerializable(ds: Displays) { forall i :: 0 <= i < |ds| ==> IsSerializable(ds[i]) }

  ghost predicate AreSerializable(ds: Displays) { |ds| <= MAXIMUM_DISPLAYS && AllSerializable(ds) }

  // ---------- what goes on the wire ----------

  function Align(size: nat): nat { (size + 3) / 4 * 4 }

  lemma {:induction false} AlignIsUp(size: nat)
    ensures size <= Align(size)
  {
  }

  function ContentSize(d: Display): nat { RECORD_FIXED_SIZE + 4 * |d.refreshRates| + |d.name| }

  function Rates(rates: seq<u32>): (bytes: seq<byte>)
    ensures |bytes| == 4 * |rates|
  {
    if rates == [] then []
    else
      Pow256Values();
      Rates(rates[..|rates| - 1]) + ToBytes(rates[|rates| - 1], 4)
  }

  function Zeros(n: nat): seq<byte> { seq(n, _ => 0) }

  const RECORD_LAYOUT: Layout := [4, 8, 4, 4, 4, 4, 4, 2, 2]

  function RecordValues(d: Display): seq<nat> {
    [Align(ContentSize(d)), d.displayId, d.port, d.width, d.height, d.dpi, d.activeRefreshRate, |d.refreshRates|, |d.name|]
  }

  lemma {:induction false} RecordFits(d: Display)
    requires |d.refreshRates| <= MAXIMUM_REFRESH_RATES && |d.name| <= MAXIMUM_NAME_BYTES
    ensures Fits(RecordValues(d), RECORD_LAYOUT)
  {
    Pow256Values();
  }

  function EncodeFixed(d: Display): (bytes: seq<byte>)
    requires |d.refreshRates| <= MAXIMUM_REFRESH_RATES && |d.name| <= MAXIMUM_NAME_BYTES
    ensures |bytes| == RECORD_FIXED_SIZE
  {
    RecordFits(d);
    RecordSize();
    Pack(RecordValues(d), RECORD_LAYOUT)
  }

  /** `RECORD_LAYOUT`, field by field. */
  ghost predicate RecordLayout(l: Layout) {
    |l| == 9 && l[0] == 4 && l[1] == 8 && l[2] == l[3] == l[4] == l[5] == l[6] == 4 && l[7] == l[8] == 2
  }

  lemma {:induction false} FieldOffsets(l: Layout)
    requires RecordLayout(l)
    ensures Size(l[..0]) == 0 && Size(l[..1]) == 4 && Size(l[..2]) == 12 && Size(l[..3]) == 16 && Size(l[..4]) == 20
    ensures Size(l[..5]) == 24 && Size(l[..6]) == 28 && Size(l[..7]) == 32 && Size(l[..8]) == 34
    ensures Size(l[..9]) == 36 && Size(l) == 36
  {
    assert Size(l[..0]) == 0;
    hide Size;
    SizePrefix(l, 0); SizePrefix(l, 1); SizePrefix(l, 2); SizePrefix(l, 3); SizePrefix(l, 4);
    SizePrefix(l, 5); SizePrefix(l, 6); SizePrefix(l, 7); SizePrefix(l, 8);
    assert l[..9] == l;
  }

  lemma {:induction false} RecordSize()
    ensures Size(RECORD_LAYOUT) == RECORD_FIXED_SIZE
  {
    FieldOffsets(RECORD_LAYOUT);
  }

  function EncodeRecord(d: Display): (bytes: seq<byte>)
    requires |d.refreshRates| <= MAXIMUM_REFRESH_RATES && |d.name| <= MAXIMUM_NAME_BYTES
    ensures |bytes| == Align(ContentSize(d))
  {
    EncodeFixed(d) + Rates(d.refreshRates) + d.name + Zeros(Align(ContentSize(d)) - ContentSize(d))
  }

  ghost function EncodeRecords(ds: Displays): seq<byte>
    requires AllSerializable(ds)
  {
    if ds == [] then []
    else
      assert IsSerializable(ds[|ds| - 1]);
      EncodeRecords(ds[..|ds| - 1]) + EncodeRecord(ds[|ds| - 1])
  }

  ghost function EncodeCount(n: nat): (bytes: seq<byte>)
    requires n <= MAXIMUM_DISPLAYS
    ensures |bytes| == SNAPSHOT_HEADER_SIZE
  {
    Pow256Values();
    ToBytes(n, 4) + ToBytes(0, 4)
  }

  ghost function Encode(ds: Displays): seq<byte>
    requires AreSerializable(ds)
  {
    EncodeCount(|ds|) + EncodeRecords(ds)
  }

  // ---------- reading back is unambiguous ----------

  lemma {:induction false} RatesInjective(a: seq<u32>, b: seq<u32>)
    requires Rates(a) == Rates(b)
    ensures a == b
    decreases |a|
  {
    assert |a| == |b|;
    if a != [] {
      Pow256Values();
      var n := |a| - 1;
      var x, y := a[n], b[n];
      assert Rates(a)[..4 * n] == Rates(a[..n]) && Rates(a)[4 * n..] == ToBytes(x, 4);
      assert Rates(b)[..4 * n] == Rates(b[..n]) && Rates(b)[4 * n..] == ToBytes(y, 4);
      RatesInjective(a[..n], b[..n]);
      FromToBytes(x, 4);
      FromToBytes(y, 4);
      assert a == a[..n] + [x] && b == b[..n] + [y];
    }
  }

  lemma {:induction false} FixedInjective(d: Display, e: Display)
    requires IsSerializable(d) && IsSerializable(e) && EncodeFixed(d) == EncodeFixed(e)
    ensures d == e.(refreshRates := d.refreshRates, name := d.name)
    ensures |d.refreshRates| == |e.refreshRates| && |d.name| == |e.name|
  {
    RecordFits(d);
    RecordFits(e);
    RecordSize();
    UnpackPack(RecordValues(d), RECORD_LAYOUT);
    UnpackPack(RecordValues(e), RECORD_LAYOUT);
    assert RecordValues(d) == RecordValues(e);
    var a, b := RecordValues(d), RecordValues(e);
    assert a[1] == b[1] && a[2] == b[2] && a[3] == b[3] && a[4] == b[4] && a[5] == b[5] && a[6] == b[6]
      && a[7] == b[7] && a[8] == b[8];
  }

  lemma {:induction false} RecordParts(d: Display)
    requires IsSerializable(d)
    ensures var r, n := EncodeRecord(d), RECORD_FIXED_SIZE + 4 * |d.refreshRates|;
            && |r| >= n + |d.name| == ContentSize(d)
            && r[..RECORD_FIXED_SIZE] == EncodeFixed(d) && r[RECORD_FIXED_SIZE..n] == Rates(d.refreshRates)
            && r[n..n + |d.name|] == d.name && (forall k :: ContentSize(d) <= k < |r| ==> r[k] == 0)
  {
    hide EncodeFixed;
    hide Rates;
  }

  /** No record is the beginning of another. */
  lemma {:induction false} RecordUnique(d: Display, e: Display, s: seq<byte>)
    requires IsSerializable(d) && IsSerializable(e) && EncodeRecord(d) <= s && EncodeRecord(e) <= s
    ensures d == e
  {
    RecordParts(d);
    RecordParts(e);
    SameSlices(EncodeRecord(d), EncodeRecord(e), s);
    hide EncodeRecord;
    FixedInjective(d, e);
    hide EncodeFixed;
    RatesInjective(d.refreshRates, e.refreshRates);
  }

  lemma {:induction false} SameSlices(a: seq<byte>, b: seq<byte>, s: seq<byte>)
    requires a <= s && b <= s
    ensures forall i: nat, j: nat {:trigger a[i..j]} {:trigger b[i..j]} :: i <= j <= |a| && j <= |b| ==> a[i..j] == b[i..j]
    ensures forall j: nat {:trigger a[..j]} {:trigger b[..j]} :: j <= |a| && j <= |b| ==> a[..j] == b[..j]
  {
  }

  lemma {:induction false} RecordsStep(ds: Displays, k: nat)
    requires AllSerializable(ds) && k < |ds|
    ensures IsSerializable(ds[k]) && AllSerializable(ds[..k]) && AllSerializable(ds[..k + 1])
    ensures EncodeRecords(ds[..k + 1]) == EncodeRecords(ds[..k]) + EncodeRecord(ds[k])
  {
    hide EncodeRecord;
    hide IsSerializable;
    var front := ds[..k + 1];
    assert front != [] && front[..|front| - 1] == ds[..k] && front[|front| - 1] == ds[k];
  }

  lemma {:induction false} RecordsPrefix(ds: Displays, k: nat)
    requires AllSerializable(ds) && k <= |ds|
    ensures AllSerializable(ds[..k]) && EncodeRecords(ds[..k]) <= EncodeRecords(ds)
    decreases |ds| - k
  {
    hide EncodeRecord;
    hide IsSerializable;
    if k < |ds| {
      RecordsStep(ds, k);
      RecordsPrefix(ds, k + 1);
      hide EncodeRecords;
    } else {
      assert ds[..k] == ds;
    }
  }

  lemma {:induction false} RecordAfter(a: seq<byte>, r: seq<byte>, s: seq<byte>)
    requires a + r <= s
    ensures a <= s && r <= s[|a|..]
  {
    assert s[..|a + r|] == a + r;
  }

  lemma {:induction false} SameRecordAfter(a: seq<byte>, d: Display, e: Display, s: seq<byte>)
    requires IsSerializable(d) && IsSerializable(e) && a + EncodeRecord(d) <= s && a + EncodeRecord(e) <= s
    ensures d == e
  {
    RecordAfter(a, EncodeRecord(d), s);
    RecordAfter(a, EncodeRecord(e), s);
    hide EncodeRecord;
    RecordUnique(d, e, s[|a|..]);
  }

  /** Displays read one after the other are the displays that were written. */
  lemma {:induction false} ReadSoFar(ds: Displays, parsed: Displays)
    requires AllSerializable(ds) && AllSerializable(parsed) && |parsed| <= |ds|
    requires EncodeRecords(parsed) <= EncodeRecords(ds)
    ensures parsed == ds[..|parsed|]
    decreases |parsed|
  {
    if parsed != [] {
      var n, s := |parsed| - 1, EncodeRecords(ds);
      assert parsed[..n + 1] == parsed;
      RecordsStep(parsed, n);
      RecordsStep(ds, n);
      RecordsPrefix(ds, n + 1);
      hide EncodeRecords;
      hide EncodeRecord;
      hide IsSerializable;
      RecordAfter(EncodeRecords(parsed[..n]), EncodeRecord(parsed[n]), s);
      ReadSoFar(ds, parsed[..n]);
      SameRecordAfter(EncodeRecords(ds[..n]), parsed[n], ds[n], s);
      assert ds[..n + 1] == ds[..n] + [ds[n]] && parsed == parsed[..n] + [parsed[n]];
    }
  }

  /** Different lists have different payloads. */
  lemma {:induction false} EncodeInjective(a: Displays, b: Displays)
    requires AreSerializable(a) && AreSerializable(b) && Encode(a) == Encode(b)
    ensures a == b
  {
    CountOf(a);
    CountOf(b);
    assert EncodeRecords(a) == Encode(a)[SNAPSHOT_HEADER_SIZE..];
    assert EncodeRecords(b) == Encode(b)[SNAPSHOT_HEADER_SIZE..];
    ReadSoFar(b, a);
    assert a[..] == b[..|a|];
  }

  lemma {:induction false} CountOf(ds: Displays)
    requires AreSerializable(ds)
    ensures |Encode(ds)| >= SNAPSHOT_HEADER_SIZE
    ensures FromBytes(Encode(ds)[..4]) == |ds| && FromBytes(Encode(ds)[4..8]) == 0
    ensures Encode(ds)[SNAPSHOT_HEADER_SIZE..] == EncodeRecords(ds)
  {
    hide EncodeRecords;
    Pow256Values();
    FromToBytes(|ds|, 4);
    FromToBytes(0, 4);
    assert Encode(ds)[..4] == ToBytes(|ds|, 4) && Encode(ds)[4..8] == ToBytes(0, 4);
  }

  /** The largest payload: 64 records of 36 + 4 * 16 + 128 bytes after the header. */
  const MAXIMUM_PAYLOAD_SIZE := 14600

  lemma {:induction false} RecordsAreBounded(ds: Displays)
    requires AllSerializable(ds)
    ensures |EncodeRecords(ds)| <= 228 * |ds|
  {
    hide IsText;
    hide EncodeRecord;
    if ds != [] {
      assert IsSerializable(ds[|ds| - 1]);
      RecordsAreBounded(ds[..|ds| - 1]);
    }
  }

  // ---------- writing a request ----------

  /** Store field `k` of a record that starts behind `before`. */
  method WriteRecordField(output: array<byte>, offset: nat, value: nat, width: nat,
                          ghost before: seq<byte>, ghost values: seq<nat>, ghost layout: Layout, ghost k: nat)
    requires Fits(values, layout) && k < |layout| && values[k] == value && layout[k] == width
    requires |before| + Size(layout[..k]) == offset && offset + width <= output.Length
    requires output[..offset] == before + Pack(values[..k], layout[..k])
    modifies output
    ensures |before| + Size(layout[..k + 1]) == offset + width
    ensures output[..offset + width] == before + Pack(values[..k + 1], layout[..k + 1])
    ensures ZerosFrom(output[..], offset + width) || !old(ZerosFrom(output[..], offset))
  {
    SizePrefix(layout, k);
    PackStep(values, layout, k);
    ghost var was := output[..];
    WriteUint(output, offset, value, width);
    ZerosRemain(was, output[..], offset, offset + width);
  }

  /** Everything from `offset` on is zero. */
  predicate ZerosFrom(bytes: seq<byte>, offset: nat) {
    forall k :: offset <= k < |bytes| ==> bytes[k] == 0
  }

  lemma {:induction false} ZerosRemain(was: seq<byte>, bytes: seq<byte>, offset: nat, end: nat)
    requires |was| == |bytes| && offset <= end <= |bytes| && bytes[end..] == was[end..]
    ensures ZerosFrom(was, offset) ==> ZerosFrom(bytes, end)
  {
    forall k | end <= k < |bytes| ensures bytes[k] == was[k] {
      assert bytes[end..][k - end] == was[end..][k - end];
    }
  }

  method WriteFixed(output: array<byte>, offset: nat, d: Display, ghost before: seq<byte>, ghost v: seq<nat>, ghost l: Layout)
    requires |d.refreshRates| <= MAXIMUM_REFRESH_RATES && |d.name| <= MAXIMUM_NAME_BYTES
    requires v == RecordValues(d) && l == RECORD_LAYOUT
    requires offset + RECORD_FIXED_SIZE <= output.Length && output[..offset] == before
    requires ZerosFrom(output[..], offset)
    modifies output
    ensures Fits(v, l) && Size(l) == RECORD_FIXED_SIZE
    ensures output[..offset + RECORD_FIXED_SIZE] == before + Pack(v, l)
    ensures ZerosFrom(output[..], offset + RECORD_FIXED_SIZE)
  {
    RecordFits(d);
    assert Pack(v[..0], l[..0]) == [];
    FieldOffsets(l);
    hide Pack;
    hide Size;
    hide Pow256;
    hide ZerosFrom;
    var recordSize := Align(ContentSize(d));
    WriteRecordField(output, offset, recordSize, 4, before, v, l, 0);
    WriteRecordField(output, offset + 4, d.displayId, 8, before, v, l, 1);
    WriteRecordField(output, offset + 12, d.port, 4, before, v, l, 2);
    WriteRecordField(output, offset + 16, d.width, 4, before, v, l, 3);
    WriteRecordField(output, offset + 20, d.height, 4, before, v, l, 4);
    WriteRecordField(output, offset + 24, d.dpi, 4, before, v, l, 5);
    WriteRecordField(output, offset + 28, d.activeRefreshRate, 4, before, v, l, 6);
    WriteRecordField(output, offset + 32, |d.refreshRates|, 2, before, v, l, 7);
    WriteRecordField(output, offset + 34, |d.name|, 2, before, v, l, 8);
    assert v[..9] == v && l[..9] == l;
  }

  method WriteRates(output: array<byte>, offset: nat, rates: seq<u32>)
    requires offset + 4 * |rates| <= output.Length && ZerosFrom(output[..], offset)
    modifies output
    ensures output[..offset + 4 * |rates|] == old(output[..offset]) + Rates(rates)
    ensures ZerosFrom(output[..], offset + 4 * |rates|)
  {
    Pow256Values();
    hide Pow256;
    var variableOffset := offset;
    for k := 0 to |rates|
      invariant variableOffset == offset + 4 * k && ZerosFrom(output[..], variableOffset)
      invariant output[..variableOffset] == old(output[..offset]) + Rates(rates[..k])
    {
      assert rates[..k + 1][..k] == rates[..k];
      ghost var was := output[..];
      WriteUint(output, variableOffset, rates[k], 4);
      ZerosRemain(was, output[..], variableOffset, variableOffset + 4);
      variableOffset := variableOffset + 4;
    }
    assert rates[..|rates|] == rates;
  }

  method CopyBytes(output: array<byte>, offset: nat, bytes: seq<byte>)
    requires offset + |bytes| <= output.Length && ZerosFrom(output[..], offset)
    modifies output
    ensures output[..offset + |bytes|] == old(output[..offset]) + bytes
    ensures ZerosFrom(output[..], offset + |bytes|)
  {
    for k := 0 to |bytes|
      invariant forall i :: 0 <= i < k ==> output[offset + i] == bytes[i]
      invariant forall i :: 0 <= i < output.Length && !(offset <= i < offset + k) ==> output[i] == old(output[i])
    {
      output[offset + k] := bytes[k];
    }
  }

  /** Store one record; the padding is zero already. */
  method WriteRecord(output: array<byte>, offset: nat, d: Display)
    requires IsSerializable(d) && offset + Align(ContentSize(d)) <= output.Length
    requires ZerosFrom(output[..], offset)
    modifies output
    ensures output[..offset + Align(ContentSize(d))] == old(output[..offset]) + EncodeRecord(d)
    ensures ZerosFrom(output[..], offset + Align(ContentSize(d)))
  {
    hide IsText;
    hide Rates;
    var end := offset + ContentSize(d);
    WriteFixed(output, offset, d, output[..offset], RecordValues(d), RECORD_LAYOUT);
    hide Pack;
    hide RecordValues;
    WriteRates(output, offset + RECORD_FIXED_SIZE, d.refreshRates);
    CopyBytes(output, offset + RECORD_FIXED_SIZE + 4 * |d.refreshRates|, d.name);
    assert output[..end] == old(output[..offset]) + (EncodeFixed(d) + Rates(d.refreshRates) + d.name);
    hide EncodeFixed;
    PadWithZeros(output[..], end, Align(ContentSize(d)) - ContentSize(d));
  }

  lemma {:induction false} PadWithZeros(bytes: seq<byte>, end: nat, n: nat)
    requires end + n <= |bytes| && ZerosFrom(bytes, end)
    ensures bytes[..end + n] == bytes[..end] + Zeros(n) && ZerosFrom(bytes, end + n)
  {
  }

  lemma {:induction false} RecordsAreSmall(d: Display)
    requires IsSerializable(d)
    ensures Align(ContentSize(d)) <= 228
  {
    hide IsText;
  }

  /** Why a list cannot be written: exactly when it is not serializable. The size limit of the
      control protocol is never what rejects it. */
  method PayloadSize(displays: Displays) returns (size: Option<nat>)
    ensures size.Some? <==> AreSerializable(displays)
    ensures size.Some? ==> size.value == |Encode(displays)| <= MAXIMUM_PAYLOAD_SIZE
  {
    if |displays| > MAXIMUM_DISPLAYS {
      return None;
    }
    var payloadSize := SNAPSHOT_HEADER_SIZE;
    assert EncodeRecords(displays[..0]) == [];
    hide EncodeRecords;
    hide EncodeRecord;
    hide IsText;
    for k := 0 to |displays|
      invariant AllSerializable(displays[..k])
      invariant payloadSize == SNAPSHOT_HEADER_SIZE + |EncodeRecords(displays[..k])| <= SNAPSHOT_HEADER_SIZE + 228 * k
    {
      var d := displays[k];
      if |d.refreshRates| > MAXIMUM_REFRESH_RATES || |d.name| > MAXIMUM_NAME_BYTES
         || |d.refreshRates| > 0xffff || |d.name| > 0xffff {
        assert !IsSerializable(displays[k]);
        return None;
      }
      var valid := IsValidUtf8(d.name);
      if !valid {
        assert !IsSerializable(displays[k]);
        return None;
      }
      RecordsAreSmall(d);
      hide Align;
      hide ContentSize;
      var recordSize := Align(ContentSize(d));
      if recordSize > MAXIMUM_CONTROL_PAYLOAD_SIZE || payloadSize > MAXIMUM_CONTROL_PAYLOAD_SIZE - recordSize {
        assert false;
      }
      assert displays[..k + 1] == displays[..k] + [d];
      AppendRecord(displays[..k], d);
      payloadSize := payloadSize + recordSize;
    }
    assert displays[..|displays|] == displays;
    size := Some(payloadSize);
  }

  method WriteCount(buffer: array<byte>, count: nat)
    requires count <= MAXIMUM_DISPLAYS && SNAPSHOT_HEADER_SIZE <= buffer.Length && ZerosFrom(buffer[..], 0)
    modifies buffer
    ensures buffer[..SNAPSHOT_HEADER_SIZE] == EncodeCount(count) && ZerosFrom(buffer[..], SNAPSHOT_HEADER_SIZE)
  {
    Pow256Values();
    hide Pow256;
    ghost var was := buffer[..];
    WriteUint(buffer, 0, count, 4);
    ZerosRemain(was, buffer[..], 0, 4);
    ZeroField(buffer[4..8]);
    assert buffer[..SNAPSHOT_HEADER_SIZE] == buffer[..4] + buffer[4..8];
  }

  method WriteRecords(buffer: array<byte>, displays: Displays)
    requires AreSerializable(displays)
    requires buffer.Length == SNAPSHOT_HEADER_SIZE + |EncodeRecords(displays)| && ZerosFrom(buffer[..], SNAPSHOT_HEADER_SIZE)
    modifies buffer
    ensures buffer[..] == old(buffer[..SNAPSHOT_HEADER_SIZE]) + EncodeRecords(displays)
  {
    hide EncodeRecord;
    hide ZerosFrom;
    hide IsSerializable;
    var offset := SNAPSHOT_HEADER_SIZE;
    for k := 0 to |displays|
      invariant AllSerializable(displays[..k])
      invariant offset == SNAPSHOT_HEADER_SIZE + |EncodeRecords(displays[..k])| <= buffer.Length
      invariant buffer[..offset] == old(buffer[..SNAPSHOT_HEADER_SIZE]) + EncodeRecords(displays[..k])
      invariant ZerosFrom(buffer[..], offset)
    {
      RecordsStep(displays, k);
      RecordsPrefix(displays, k + 1);
      hide EncodeRecords;
      WriteRecord(buffer, offset, displays[k]);
      offset := offset + Align(ContentSize(displays[k]));
    }
    assert displays[..|displays|] == displays;
    assert buffer[..offset] == buffer[..];
  }

  method Serialize(displays: Displays) returns (payload: Option<seq<byte>>)
    ensures payload.Some? <==> AreSerializable(displays)
    ensures payload.Some? ==> payload.value == Encode(displays) && |payload.value| <= MAXIMUM_PAYLOAD_SIZE
  {
    var size := PayloadSize(displays);
    if size.None? {
      return None;
    }
    var buffer := new byte[size.value](_ => 0);
    WriteCount(buffer, |displays|);
    WriteRecords(buffer, displays);
    payload := Some(buffer[..]);
  }

  lemma {:induction false} ZeroField(bytes: seq<byte>)
    requires |bytes| == 4 && forall k :: 0 <= k < 4 ==> bytes[k] == 0
    ensures 0 < Pow256(4) && ToBytes(0, 4) == bytes
  {
    Pow256Values();
    assert ToBytes(0, 4) == ToBytes(0, 3) + [0] && ToBytes(0, 3) == ToBytes(0, 2) + [0]
      && ToBytes(0, 2) == ToBytes(0, 1) + [0] && ToBytes(0, 1) == ToBytes(0, 0) + [0];
  }

  // ---------- reading a request ----------

  /** The nine integers at the start of a record. */
  ghost predicate HasFixed(s: seq<byte>, d: Display)
    requires |s| >= RECORD_FIXED_SIZE
  {
    && FromBytes(s[0..4]) == Align(ContentSize(d)) && FromBytes(s[4..12]) == d.displayId
    && FromBytes(s[12..16]) == d.port && FromBytes(s[16..20]) == d.width && FromBytes(s[20..24]) == d.height
    && FromBytes(s[24..28]) == d.dpi && FromBytes(s[28..32]) == d.activeRefreshRate
    && FromBytes(s[32..34]) == |d.refreshRates| && FromBytes(s[34..36]) == |d.name|
  }

  lemma {:induction false} FieldsAtOffsets(s: seq<byte>, l: Layout)
    requires |s| == RECORD_FIXED_SIZE && RecordLayout(l)
    ensures Size(l) == RECORD_FIXED_SIZE
    ensures var v := Unpack(s, l);
            && |v| == 9 && v[0] == FromBytes(s[0..4]) && v[1] == FromBytes(s[4..12]) && v[2] == FromBytes(s[12..16])
            && v[3] == FromBytes(s[16..20]) && v[4] == FromBytes(s[20..24]) && v[5] == FromBytes(s[24..28])
            && v[6] == FromBytes(s[28..32]) && v[7] == FromBytes(s[32..34]) && v[8] == FromBytes(s[34..36])
  {
    FieldOffsets(l);
    hide FromBytes;
    UnpackAt(s, l, 0); UnpackAt(s, l, 1); UnpackAt(s, l, 2); UnpackAt(s, l, 3); UnpackAt(s, l, 4);
    UnpackAt(s, l, 5); UnpackAt(s, l, 6); UnpackAt(s, l, 7); UnpackAt(s, l, 8);
  }

  lemma {:induction false} FixedMatches(s: seq<byte>, d: Display)
    requires |s| == RECORD_FIXED_SIZE && |d.refreshRates| <= MAXIMUM_REFRESH_RATES && |d.name| <= MAXIMUM_NAME_BYTES
    ensures HasFixed(s, d) <==> EncodeFixed(d) == s
  {
    FieldsAtOffsets(s, RECORD_LAYOUT);
    PackUnpack(s, RECORD_LAYOUT);
    RecordFits(d);
    UnpackPack(RecordValues(d), RECORD_LAYOUT);
    hide Unpack;
    hide Pack;
    hide FromBytes;
    hide Size;
    NineValues(Unpack(s, RECORD_LAYOUT), RecordValues(d));
  }

  lemma {:induction false} NineValues(a: seq<nat>, b: seq<nat>)
    requires |a| == |b| == 9
    ensures a == b <==> a[0] == b[0] && a[1] == b[1] && a[2] == b[2] && a[3] == b[3] && a[4] == b[4] && a[5] == b[5]
                        && a[6] == b[6] && a[7] == b[7] && a[8] == b[8]
  {
    if a[0] == b[0] && a[1] == b[1] && a[2] == b[2] && a[3] == b[3] && a[4] == b[4] && a[5] == b[5]
       && a[6] == b[6] && a[7] == b[7] && a[8] == b[8] {
      forall i | 0 <= i < 9 ensures a[i] == b[i] {
      }
    }
  }

  /** What has to be found at the start of `s` for it to start with the record of `d`. */
  ghost predicate HasRecord(s: seq<byte>, d: Display) {
    var content, aligned := ContentSize(d), Align(ContentSize(d));
    var n := RECORD_FIXED_SIZE + 4 * |d.refreshRates|;
    && aligned <= |s|
    && HasFixed(s, d)
    && s[RECORD_FIXED_SIZE..n] == Rates(d.refreshRates) && s[n..content] == d.name
    && forall k :: content <= k < aligned ==> s[k] == 0
  }

  lemma {:induction false} RecordMatches(s: seq<byte>, d: Display)
    requires |d.refreshRates| <= MAXIMUM_REFRESH_RATES && |d.name| <= MAXIMUM_NAME_BYTES
    ensures EncodeRecord(d) <= s <==> HasRecord(s, d)
  {
    var content, aligned, n := ContentSize(d), Align(ContentSize(d)), RECORD_FIXED_SIZE + 4 * |d.refreshRates|;
    if aligned <= |s| {
      RecordEquals(s[..aligned], d);
      FixedMatches(s[..36], d);
      FixedFront(s, d);
      hide EncodeRecord;
      hide EncodeFixed;
      hide HasFixed;
      hide Rates;
      SlicesOfFront(s, aligned, n, content);
      assert EncodeRecord(d) <= s <==> EncodeRecord(d) == s[..aligned];
    }
  }

  lemma {:induction false} SlicesOfFront(s: seq<byte>, aligned: nat, n: nat, content: nat)
    requires RECORD_FIXED_SIZE <= n <= content <= aligned <= |s|
    ensures var t := s[..aligned];
            && t[..RECORD_FIXED_SIZE] == s[..RECORD_FIXED_SIZE] && t[RECORD_FIXED_SIZE..n] == s[RECORD_FIXED_SIZE..n]
            && t[n..content] == s[n..content] && forall k :: content <= k < aligned ==> t[k] == s[k]
  {
  }

  lemma {:induction false} RecordEquals(t: seq<byte>, d: Display)
    requires |d.refreshRates| <= MAXIMUM_REFRESH_RATES && |d.name| <= MAXIMUM_NAME_BYTES
    requires |t| == Align(ContentSize(d))
    ensures var content, n := ContentSize(d), RECORD_FIXED_SIZE + 4 * |d.refreshRates|;
            EncodeRecord(d) == t
            <==> && EncodeFixed(d) == t[..RECORD_FIXED_SIZE] && t[RECORD_FIXED_SIZE..n] == Rates(d.refreshRates)
                 && t[n..content] == d.name && forall k :: content <= k < |t| ==> t[k] == 0
  {
    hide EncodeFixed;
    hide Rates;
    PutTogether(t, EncodeFixed(d), Rates(d.refreshRates), d.name, |t| - ContentSize(d));
  }

  lemma {:induction false} FixedFront(s: seq<byte>, d: Display)
    requires |s| >= RECORD_FIXED_SIZE
    ensures HasFixed(s[..36], d) == HasFixed(s, d)
  {
    hide FromBytes;
    var t := s[..36];
    assert t[0..4] == s[0..4] && t[4..12] == s[4..12] && t[12..16] == s[12..16] && t[16..20] == s[16..20];
    assert t[20..24] == s[20..24] && t[24..28] == s[24..28] && t[28..32] == s[28..32] && t[32..34] == s[32..34];
    assert t[34..36] == s[34..36];
  }

  lemma {:induction false} PutTogether(s: seq<byte>, a: seq<byte>, b: seq<byte>, c: seq<byte>, n: nat)
    requires |s| == |a| + |b| + |c| + n
    ensures s == a + b + c + Zeros(n)
            <==> && s[..|a|] == a && s[|a|..|a| + |b|] == b && s[|a| + |b|..|a| + |b| + |c|] == c
                 && forall k :: |a| + |b| + |c| <= k < |s| ==> s[k] == 0
  {
    var whole := a + b + c + Zeros(n);
    assert whole[..|a|] == a && whole[|a|..|a| + |b|] == b && whole[|a| + |b|..|a| + |b| + |c|] == c;
    if s[..|a|] == a && s[|a|..|a| + |b|] == b && s[|a| + |b|..|a| + |b| + |c|] == c
       && forall k :: |a| + |b| + |c| <= k < |s| ==> s[k] == 0 {
      assert s == s[..|a|] + s[|a|..|a| + |b|] + s[|a| + |b|..|a| + |b| + |c|] + s[|a| + |b| + |c|..];
      assert s[|a| + |b| + |c|..] == Zeros(n);
    }
  }

  method ReadRates(payload: seq<byte>, offset: nat, count: nat) returns (rates: seq<u32>)
    requires offset + 4 * count <= |payload|
    ensures |rates| == count && Rates(rates) == payload[offset..offset + 4 * count]
  {
    Pow256Values();
    hide Pow256;
    rates := [];
    var variableOffset := offset;
    for k := 0 to count
      invariant variableOffset == offset + 4 * k && |rates| == k
      invariant Rates(rates) == payload[offset..variableOffset]
    {
      var rate := ReadUint(payload, variableOffset, 4);
      ToFromBytes(payload[variableOffset..variableOffset + 4]);
      assert (rates + [rate])[..k] == rates;
      rates := rates + [rate];
      variableOffset := variableOffset + 4;
    }
  }

  lemma {:induction false} SliceOfSuffix(payload: seq<byte>, offset: nat, a: nat, b: nat)
    requires a <= b && offset + b <= |payload|
    ensures payload[offset..][a..b] == payload[offset + a..offset + b]
  {
  }

  lemma {:induction false} ZerosOfSuffix(payload: seq<byte>, offset: nat, a: nat, b: nat)
    requires a <= b && offset + b <= |payload|
    ensures (forall k :: a <= k < b ==> payload[offset..][k] == 0)
            <==> forall k :: offset + a <= k < offset + b ==> payload[k] == 0
  {
    if forall k :: a <= k < b ==> payload[offset..][k] == 0 {
      forall k | offset + a <= k < offset + b ensures payload[k] == 0 {
        assert payload[offset..][k - offset] == payload[k];
      }
    }
  }

  method PaddingIsZero(payload: seq<byte>, from: nat, end: nat) returns (zero: bool)
    requires from <= end <= |payload|
    ensures zero <==> forall k :: from <= k < end ==> payload[k] == 0
  {
    for k := from to end
      invariant forall i :: from <= i < k ==> payload[i] == 0
    {
      if payload[k] != 0 {
        return false;
      }
    }
    zero := true;
  }

  /** What every record starts with: counts within the limits, the size they imply, a port that
      fits, and zero padding. */
  ghost predicate HasFront(s: seq<byte>) {
    && |s| >= RECORD_FIXED_SIZE
    && var refreshRateCount, nameLength := FromBytes(s[32..34]), FromBytes(s[34..36]);
    && refreshRateCount <= MAXIMUM_REFRESH_RATES && nameLength <= MAXIMUM_NAME_BYTES
    && var content := RECORD_FIXED_SIZE + refreshRateCount * 4 + nameLength;
    && FromBytes(s[0..4]) == Align(content) <= |s| && FromBytes(s[12..16]) <= 0xff
    && forall k :: content <= k < Align(content) ==> s[k] == 0
  }

  lemma {:induction false} RecordsHaveFronts(s: seq<byte>, d: Display)
    requires IsSerializable(d) && HasRecord(s, d)
    ensures HasFront(s)
  {
    hide FromBytes;
    hide Rates;
    hide IsText;
    AlignIsUp(ContentSize(d));
    hide Align;
  }

  /** The record at `offset`; `None` exactly when no record starts there. */
  method ParseRecord(payload: seq<byte>, offset: nat) returns (r: Option<Display>)
    requires offset <= |payload|
    ensures r.Some? ==> IsSerializable(r.value) && HasRecord(payload[offset..], r.value)
    ensures r.None? ==> forall d :: IsSerializable(d) ==> !HasRecord(payload[offset..], d)
  {
    forall d | IsSerializable(d) && HasRecord(payload[offset..], d) ensures HasFront(payload[offset..]) {
      RecordsHaveFronts(payload[offset..], d);
    }
    hide HasRecord;
    hide IsSerializable;
    var front, port, refreshRateCount, nameLength := ParseFront(payload, offset);
    if !front {
      return None;
    }
    r := ReadDisplay(payload, offset, port, refreshRateCount, nameLength);
  }

  method ReadFrontField(payload: seq<byte>, offset: nat, from: nat, end: nat) returns (value: nat)
    requires from <= end && offset + end <= |payload|
    ensures value == FromBytes(payload[offset..][from..end])
  {
    SliceOfSuffix(payload, offset, from, end);
    value := ReadUint(payload, offset + from, end - from);
  }

  method ParseFront(payload: seq<byte>, offset: nat)
    returns (front: bool, port: u8, refreshRateCount: nat, nameLength: nat)
    requires offset <= |payload|
    ensures front <==> HasFront(payload[offset..])
    ensures front ==>
              && port == FromBytes(payload[offset..][12..16]) && refreshRateCount == FromBytes(payload[offset..][32..34])
              && nameLength == FromBytes(payload[offset..][34..36])
  {
    front, port, refreshRateCount, nameLength := false, 0, 0, 0;
    if |payload| - offset < RECORD_FIXED_SIZE {
      return;
    }
    ghost var s := payload[offset..];
    hide FromBytes;
    var recordSize := ReadFrontField(payload, offset, 0, 4);
    refreshRateCount := ReadFrontField(payload, offset, 32, 34);
    nameLength := ReadFrontField(payload, offset, 34, 36);
    if refreshRateCount > MAXIMUM_REFRESH_RATES || nameLength > MAXIMUM_NAME_BYTES {
      return;
    }
    var contentSize := RECORD_FIXED_SIZE + refreshRateCount * 4 + nameLength;
    AlignIsUp(contentSize);
    hide Align;
    if recordSize != Align(contentSize) || recordSize > |payload| - offset {
      return;
    }
    var announced := ReadFrontField(payload, offset, 12, 16);
    if announced > 0xff {
      return;
    }
    port := announced;
    front := PaddingIsZero(payload, offset + contentSize, offset + recordSize);
    ZerosOfSuffix(payload, offset, contentSize, recordSize);
  }

  method ReadScalars(payload: seq<byte>, offset: nat)
    returns (displayId: u64, width: u32, height: u32, dpi: u32, activeRefreshRate: u32)
    requires offset + RECORD_FIXED_SIZE <= |payload|
    ensures var s := payload[offset..];
            && FromBytes(s[4..12]) == displayId && FromBytes(s[16..20]) == width && FromBytes(s[20..24]) == height
            && FromBytes(s[24..28]) == dpi && FromBytes(s[28..32]) == activeRefreshRate
  {
    ghost var s := payload[offset..];
    Pow256Values();
    hide Pow256;
    hide FromBytes;
    displayId := ReadUint(payload, offset + 4, 8);
    width := ReadUint(payload, offset + 16, 4);
    height := ReadUint(payload, offset + 20, 4);
    dpi := ReadUint(payload, offset + 24, 4);
    activeRefreshRate := ReadUint(payload, offset + 28, 4);
    assert s[4..12] == payload[offset + 4..offset + 12] && s[16..20] == payload[offset + 16..offset + 20];
    assert s[20..24] == payload[offset + 20..offset + 24] && s[24..28] == payload[offset + 24..offset + 28];
    assert s[28..32] == payload[offset + 28..offset + 32];
  }

  method ReadDisplay(payload: seq<byte>, offset: nat, port: u8, refreshRateCount: nat, nameLength: nat)
    returns (r: Option<Display>)
    requires offset <= |payload| && HasFront(payload[offset..])
    requires var s := payload[offset..];
             && port == FromBytes(s[12..16]) && refreshRateCount == FromBytes(s[32..34]) && nameLength == FromBytes(s[34..36])
    ensures r.Some? ==> IsSerializable(r.value) && HasRecord(payload[offset..], r.value)
    ensures r.None? ==> forall d :: IsSerializable(d) ==> !HasRecord(payload[offset..], d)
  {
    ghost var s := payload[offset..];
    Pow256Values();
    hide Pow256;
    hide FromBytes;
    hide Rates;
    hide IsText;
    var displayId, width, height, dpi, activeRefreshRate := ReadScalars(payload, offset);
    var rates := ReadRates(payload, offset + RECORD_FIXED_SIZE, refreshRateCount);
    var n := RECORD_FIXED_SIZE + 4 * refreshRateCount;
    var name := payload[offset + n..offset + n + nameLength];
    assert s[36..n] == payload[offset + 36..offset + n] && s[n..n + nameLength] == name;
    var valid := IsValidUtf8(name);
    if !valid {
      return None;
    }
    r := Some(Display(displayId, port, width, height, dpi, rates, activeRefreshRate, name));
  }

  lemma {:induction false} AppendRecord(parsed: Displays, d: Display)
    requires AllSerializable(parsed) && IsSerializable(d)
    ensures AllSerializable(parsed + [d]) && EncodeRecords(parsed + [d]) == EncodeRecords(parsed) + EncodeRecord(d)
  {
    hide IsSerializable;
    hide EncodeRecord;
    assert (parsed + [d])[..|parsed|] == parsed;
  }

  lemma {:induction false} ExtendSlice(payload: seq<byte>, from: nat, offset: nat, r: seq<byte>)
    requires from <= offset <= |payload| && r <= payload[offset..]
    ensures offset + |r| <= |payload| && payload[from..offset + |r|] == payload[from..offset] + r
  {
    assert payload[offset..][..|r|] == payload[offset..offset + |r|];
  }

  lemma {:induction false} OneMoreRecord(payload: seq<byte>, parsed: Displays, d: Display, offset: nat)
    requires AllSerializable(parsed) && IsSerializable(d) && SNAPSHOT_HEADER_SIZE <= offset <= |payload|
    requires payload[SNAPSHOT_HEADER_SIZE..offset] == EncodeRecords(parsed) && HasRecord(payload[offset..], d)
    ensures AllSerializable(parsed + [d]) && offset + Align(ContentSize(d)) <= |payload|
    ensures payload[SNAPSHOT_HEADER_SIZE..offset + Align(ContentSize(d))] == EncodeRecords(parsed + [d])
  {
    hide EncodeRecord;
    hide EncodeRecords;
    hide HasRecord;
    hide AllSerializable;
    hide IsText;
    hide Align;
    hide ContentSize;
    RecordMatches(payload[offset..], d);
    AppendRecord(parsed, d);
    ExtendSlice(payload, SNAPSHOT_HEADER_SIZE, offset, EncodeRecord(d));
  }

  lemma {:induction false} NextRecord(ds: Displays, parsed: Displays)
    requires AllSerializable(parsed) && AllSerializable(ds) && |parsed| < |ds|
    requires EncodeRecords(parsed) <= EncodeRecords(ds)
    ensures IsSerializable(ds[|parsed|])
    ensures EncodeRecord(ds[|parsed|]) <= EncodeRecords(ds)[|EncodeRecords(parsed)|..]
  {
    var n := |parsed|;
    ReadSoFar(ds, parsed);
    RecordsStep(ds, n);
    RecordsPrefix(ds, n + 1);
    hide EncodeRecord;
    hide EncodeRecords;
    hide IsSerializable;
    RecordAfter(EncodeRecords(parsed), EncodeRecord(ds[n]), EncodeRecords(ds));
  }

  lemma {:induction false} SliceOfRest(payload: seq<byte>, from: nat, offset: nat)
    requires from <= offset <= |payload|
    ensures payload[from..offset] <= payload[from..]
    ensures payload[from..][|payload[from..offset]|..] == payload[offset..]
  {
  }

  /** Where a record is missing, the payload encodes no list. */
  lemma {:induction false} NoMoreRecords(payload: seq<byte>, parsed: Displays, ds: Displays, offset: nat)
    requires AllSerializable(parsed) && AllSerializable(ds) && |parsed| < |ds|
    requires SNAPSHOT_HEADER_SIZE <= offset <= |payload| && payload[SNAPSHOT_HEADER_SIZE..] == EncodeRecords(ds)
    requires payload[SNAPSHOT_HEADER_SIZE..offset] == EncodeRecords(parsed)
    ensures IsSerializable(ds[|parsed|]) && HasRecord(payload[offset..], ds[|parsed|])
  {
    SliceOfRest(payload, SNAPSHOT_HEADER_SIZE, offset);
    hide EncodeRecord;
    hide EncodeRecords;
    hide HasRecord;
    NextRecord(ds, parsed);
    SizesOf(ds[|parsed|]);
    hide IsSerializable;
    RecordMatches(payload[offset..], ds[|parsed|]);
  }

  lemma {:induction false} SizesOf(d: Display)
    requires IsSerializable(d)
    ensures |d.refreshRates| <= MAXIMUM_REFRESH_RATES && |d.name| <= MAXIMUM_NAME_BYTES
  {
  }

  /** Nothing follows the last record. */
  lemma {:induction false} NothingFollows(payload: seq<byte>, parsed: Displays, ds: Displays, offset: nat)
    requires AllSerializable(parsed) && AllSerializable(ds) && |parsed| == |ds|
    requires SNAPSHOT_HEADER_SIZE <= offset <= |payload| && payload[SNAPSHOT_HEADER_SIZE..] == EncodeRecords(ds)
    requires payload[SNAPSHOT_HEADER_SIZE..offset] == EncodeRecords(parsed)
    ensures offset == |payload|
  {
    SliceOfRest(payload, SNAPSHOT_HEADER_SIZE, offset);
    hide EncodeRecords;
    ReadSoFar(ds, parsed);
    assert parsed == ds;
  }

  lemma {:induction false} HeaderIs(payload: seq<byte>, count: nat)
    requires |payload| >= SNAPSHOT_HEADER_SIZE && count <= MAXIMUM_DISPLAYS
    requires FromBytes(payload[..4]) == count && FromBytes(payload[4..8]) == 0
    ensures payload[..8] == EncodeCount(count)
  {
    ToFromBytes(payload[..4]);
    ToFromBytes(payload[4..8]);
    assert payload[..8] == payload[..4] + payload[4..8];
  }

  /** The records behind the header, as many as announced and nothing else. */
  method ParseRecords(payload: seq<byte>, displayCount: nat) returns (r: Option<Displays>)
    requires SNAPSHOT_HEADER_SIZE <= |payload| && displayCount <= MAXIMUM_DISPLAYS
    ensures r.Some? ==>
              AllSerializable(r.value) && |r.value| == displayCount && payload[SNAPSHOT_HEADER_SIZE..] == EncodeRecords(r.value)
    ensures r.None? ==>
              forall ds :: AllSerializable(ds) && |ds| == displayCount ==> payload[SNAPSHOT_HEADER_SIZE..] != EncodeRecords(ds)
  {
    var parsed: Displays := [];
    var offset := SNAPSHOT_HEADER_SIZE;
    assert EncodeRecords(parsed) == [];
    hide EncodeRecords;
    hide AllSerializable;
    hide IsSerializable;
    hide EncodeRecord;
    hide HasRecord;
    for index := 0 to displayCount
      invariant |parsed| == index && AllSerializable(parsed)
      invariant SNAPSHOT_HEADER_SIZE <= offset <= |payload|
      invariant payload[SNAPSHOT_HEADER_SIZE..offset] == EncodeRecords(parsed)
    {
      var display := ParseRecord(payload, offset);
      if display.None? {
        forall ds | AllSerializable(ds) && |ds| == displayCount
          ensures payload[SNAPSHOT_HEADER_SIZE..] != EncodeRecords(ds)
        {
          if payload[SNAPSHOT_HEADER_SIZE..] == EncodeRecords(ds) {
            NoMoreRecords(payload, parsed, ds, offset);
          }
        }
        return None;
      }
      OneMoreRecord(payload, parsed, display.value, offset);
      parsed := parsed + [display.value];
      offset := offset + Align(ContentSize(display.value));
    }
    if offset != |payload| {
      forall ds | AllSerializable(ds) && |ds| == displayCount
        ensures payload[SNAPSHOT_HEADER_SIZE..] != EncodeRecords(ds)
      {
        if payload[SNAPSHOT_HEADER_SIZE..] == EncodeRecords(ds) {
          NothingFollows(payload, parsed, ds, offset);
        }
      }
      return None;
    }
    r := Some(parsed);
  }

  /** A payload encodes a list exactly when its count, its reserved field and its records do. */
  lemma {:induction false} EncodesList(payload: seq<byte>, ds: Displays)
    requires AreSerializable(ds)
    ensures Encode(ds) == payload
            <==> && |payload| >= SNAPSHOT_HEADER_SIZE && FromBytes(payload[..4]) == |ds| && FromBytes(payload[4..8]) == 0
                 && payload[SNAPSHOT_HEADER_SIZE..] == EncodeRecords(ds)
  {
    CountOf(ds);
    hide EncodeRecords;
    hide FromBytes;
    hide EncodeCount;
    if |payload| >= SNAPSHOT_HEADER_SIZE && FromBytes(payload[..4]) == |ds| && FromBytes(payload[4..8]) == 0
       && payload[SNAPSHOT_HEADER_SIZE..] == EncodeRecords(ds) {
      HeaderIs(payload, |ds|);
      assert payload == payload[..8] + payload[8..];
    }
  }

  /** The displays a payload encodes; `None` exactly when it encodes none. */
  method Parse(payload: seq<byte>) returns (r: Option<Displays>)
    ensures r.Some? ==> AreSerializable(r.value) && Encode(r.value) == payload
    ensures r.None? ==> forall ds :: AreSerializable(ds) ==> Encode(ds) != payload
  {
    forall ds | AreSerializable(ds)
      ensures Encode(ds) == payload
              <==> && |payload| >= SNAPSHOT_HEADER_SIZE && FromBytes(payload[..4]) == |ds| && FromBytes(payload[4..8]) == 0
                   && payload[SNAPSHOT_HEADER_SIZE..] == EncodeRecords(ds)
    {
      EncodesList(payload, ds);
    }
    hide Encode;
    hide EncodeRecords;
    hide AllSerializable;
    hide FromBytes;
    if |payload| < SNAPSHOT_HEADER_SIZE {
      return None;
    }
    var reserved := ReadUint(payload, 4, 4);
    if reserved != 0 {
      return None;
    }
    var displayCount := ReadUint(payload, 0, 4);
    assert payload[0..4] == payload[..4];
    if displayCount > MAXIMUM_DISPLAYS {
      return None;
    }
    r := ParseRecords(payload, displayCount);
  }

  /** An accepted payload is never larger than the largest request. */
  lemma {:induction false} AcceptedPayloadsAreBounded(ds: Displays)
    requires AreSerializable(ds)
    ensures SNAPSHOT_HEADER_SIZE <= |Encode(ds)| <= MAXIMUM_PAYLOAD_SIZE < MAXIMUM_CONTROL_PAYLOAD_SIZE
  {
    RecordsAreBounded(ds);
  }

  /** Parsing what was serialized gives the displays back. */
  method ParseAfterSerialize(displays: Displays) returns (read: Option<Displays>)
    ensures read == if AreSerializable(displays) then Some(displays) else None
  {
    var written := Serialize(displays);
    if written.None? {
      return None;
    }
    read := Parse(written.value);
    EncodeInjective(displays, read.value);
  }

  /** Serializing what was parsed gives the payload back. */
  method SerializeAfterParse(payload: seq<byte>) returns (written: Option<seq<byte>>)
    ensures written.Some? <==> exists ds :: AreSerializable(ds) && Encode(ds) == payload
    ensures written.Some? ==> written.value == payload
  {
    var read := Parse(payload);
    if read.None? {
      return None;
    }
    written := Serialize(read.value);
  }
}
