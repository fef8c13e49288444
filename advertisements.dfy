/** The Xiaomi "MiBeacon" service-data frame that Mi Flora sensors broadcast
    (miflora/advertisements/advertisements.go). Layout, each part after the
    previous one:
      frame control (2 bytes LE: 12 flag bits, 4-bit version), product id
      (2 bytes LE), frame counter (1 byte), MAC address (6 bytes, reversed,
      if flagged), capabilities (1 byte, if flagged), measurement sub-record
      (2-byte kind id LE, 1 length byte, payload; if flagged).
    The bitwise operations of the source are written in their arithmetic
    form: `w & 0x0fff` is `w % 0x1000`, `w >> 12` is `w / 0x1000`, and
    `flags & (1 << i) != 0` is Bit(flags, i).
    Where the source indexes out of range or meets an unknown measurement id
    it panics; the model returns an error there instead. */
module Advertisements {

  import opened Wrappers
  import opened Bytes
  import opened Errors
  import opened Model

  /** The frame-control flags, in bit order (`1 << iota`). */
  datatype Flag =
    | NewFactory | Connected | Central | Encrypted | MacAddressFlag
    | CapabilitiesFlag | MeasurementFlag | CustomData | Subtitle | Binding
  {
    /** The bit position of the flag: its mask is `1 << Index()`. */
    function Index(): (i: nat)
      ensures i < 10
    {
      match this
      case NewFactory => 0
      case Connected => 1
      case Central => 2
      case Encrypted => 3
      case MacAddressFlag => 4
      case CapabilitiesFlag => 5
      case MeasurementFlag => 6
      case CustomData => 7
      case Subtitle => 8
      case Binding => 9
    }
  }

  /** Measurement kind ids of the sub-record. */
  const TemperatureId: uint16 := 0x1004
  const BrightnessId: uint16 := 0x1007
  const MoistureId: uint16 := 0x1008
  const FertilityId: uint16 := 0x1009
  const BatteryId: uint16 := 0x100a
  const TemperatureAndHumidityId: uint16 := 0x100d

  /** XiaomiData as returned by New: a buffer of at least five bytes. */
  datatype XiaomiData = XiaomiData(data: seq<uint8>)
  type Frame = x: XiaomiData | |x.data| >= 5 witness XiaomiData([0, 0, 0, 0, 0])

  /** New: a frame of fewer than five bytes is refused; otherwise the buffer
      is wrapped unchanged. */
  function New(d: seq<uint8>): (r: Result<Frame, Error>)
    ensures r.Ok? <==> |d| >= 5
    ensures r.Ok? ==> r.value.data == d
    ensures r.Err? ==> r.error == FrameTooShort(|d|)
  {
    if |d| < 5 then Err(FrameTooShort(|d|)) else Ok(XiaomiData(d))
  }

  /** The 16-bit frame-control word of bytes 0-1. */
  function ControlWord(x: Frame): (w: uint16)
    ensures PutUint16(w) == x.data[0..2]
  {
    PutUint16LeUint16(x.data[0..2]);
    LeUint16(x.data[0..2])
  }

  /** flags(): the low 12 bits of the frame-control word. */
  function Flags(x: Frame): (f: nat)
    ensures f < 0x1000
    ensures f + 0x1000 * Version(x) == ControlWord(x)
  {
    ControlWord(x) % 0x1000
  }

  /** Version(): the high 4 bits of the frame-control word. */
  function Version(x: Frame): (v: uint8)
    ensures v < 0x10
  {
    ControlWord(x) / 0x1000
  }

  /** Bit i of n. */
  predicate Bit(n: nat, i: nat)
    decreases i
  {
    if i == 0 then n % 2 == 1 else Bit(n / 2, i - 1)
  }

  function Pow2(e: nat): (p: nat)
    ensures p >= 1
  {
    if e == 0 then 1 else 2 * Pow2(e - 1)
  }

  /** Whether flag `f` is set in a flags value. */
  predicate BitSet(flags: nat, f: Flag) {
    Bit(flags, f.Index())
  }

  /** isNewFactory, isConnected, ..., isBindingFrame: one predicate per flag.
      Flag bits 0-7 are the bits of byte 0 and flag bits 8-11 the low bits
      of byte 1. */
  predicate HasFlag(x: Frame, f: Flag)
    ensures HasFlag(x, f) <==>
      if f.Index() < 8 then Bit(x.data[0], f.Index()) else Bit(x.data[1], f.Index() - 8)
  {
    FlagBits(x.data[0], x.data[1], f.Index());
    BitSet(Flags(x), f)
  }

  /** ProductID(): bytes 2-3, little-endian. */
  function ProductID(x: Frame): (p: uint16)
    ensures PutUint16(p) == x.data[2..4]
  {
    PutUint16LeUint16(x.data[2..4]);
    LeUint16(x.data[2..4])
  }

  /** FrameCounter(): byte 4. */
  function FrameCounter(x: Frame): uint8 {
    x.data[4]
  }

  const MacAddressOffset: nat := 5

  /** MacAddress(): absent unless flagged; otherwise bytes 5..10 in reverse
      order, so that the first octet of the address comes first. */
  function MacAddress(x: Frame): (r: Result<Option<seq<uint8>>, Error>)
    ensures !HasFlag(x, MacAddressFlag) ==> r == Ok(None)
    ensures HasFlag(x, MacAddressFlag) && |x.data| < MacAddressOffset + 6 ==> r.Err?
    ensures HasFlag(x, MacAddressFlag) && |x.data| >= MacAddressOffset + 6 ==>
      r.Ok? && r.value.Some? && |r.value.value| == 6 &&
      forall i :: 0 <= i < 6 ==> r.value.value[i] == x.data[MacAddressOffset + 5 - i]
  {
    if !HasFlag(x, MacAddressFlag) then Ok(None)
    else if |x.data| < MacAddressOffset + 6 then Err(IndexOutOfRange(MacAddressOffset + 5, |x.data|))
    else Ok(Some(seq(6, i requires 0 <= i < 6 => x.data[MacAddressOffset + 5 - i])))
  }

  /** capabiltiesOffset(): after the MAC address if there is one. */
  function CapabilitiesOffset(x: Frame): (o: nat)
    ensures o == if HasFlag(x, MacAddressFlag) then 11 else 5
  {
    if HasFlag(x, MacAddressFlag) then MacAddressOffset + 6 else MacAddressOffset
  }

  /** Capabilities(): the byte at the capability offset. It is read whether
      or not the capability flag is set. */
  function Capabilities(x: Frame): (r: Result<uint8, Error>)
    ensures r.Ok? <==> CapabilitiesOffset(x) < |x.data|
    ensures r.Ok? ==> r.value == x.data[CapabilitiesOffset(x)]
  {
    var o := CapabilitiesOffset(x);
    if o < |x.data| then Ok(x.data[o]) else Err(IndexOutOfRange(o, |x.data|))
  }

  /** valuesOffset(): after the capability byte if there is one. */
  function ValuesOffset(x: Frame): (o: nat)
    ensures o == CapabilitiesOffset(x) + (if HasFlag(x, CapabilitiesFlag) then 1 else 0)
  {
    var o := CapabilitiesOffset(x);
    if HasFlag(x, CapabilitiesFlag) then o + 1 else o
  }

  /** The measurement sub-record: kind id and payload. */
  datatype SubRecord = SubRecord(id: uint16, payload: seq<uint8>)

  /** The sub-record at the values offset, as Values slices it out: absent
      unless flagged; the id, the length byte and `length` payload bytes must
      all lie inside the frame. */
  function SubRecordOf(x: Frame): (r: Result<Option<SubRecord>, Error>)
    ensures !HasFlag(x, MeasurementFlag) ==> r == Ok(None)
    ensures HasFlag(x, MeasurementFlag) ==>
      var o := ValuesOffset(x);
      (r.Ok? <==> o + 3 <= |x.data| && o + 3 + x.data[o + 2] <= |x.data|)
    ensures r.Ok? && r.value.Some? ==>
      var o := ValuesOffset(x);
      && PutUint16(r.value.value.id) == x.data[o..o + 2]
      && |r.value.value.payload| == x.data[o + 2]
      && r.value.value.payload == x.data[o + 3..o + 3 + x.data[o + 2]]
  {
    if !HasFlag(x, MeasurementFlag) then Ok(None)
    else
      var o := ValuesOffset(x);
      // the id slice [o:o+2] and then the length byte at o+2 must exist
      if o + 3 > |x.data| then Err(IndexOutOfRange(o + 2, |x.data|))
      else
        var length := x.data[o + 2];
        if o + 3 + length > |x.data| then Err(IndexOutOfRange(o + 3 + length, |x.data|))
        else
          PutUint16LeUint16(x.data[o..o + 2]);
          Ok(Some(SubRecord(LeUint16(x.data[o..o + 2]), x.data[o + 3..o + 3 + length])))
  }

  /** The kind ids Values interprets. */
  predicate KnownId(id: uint16) {
    id in {TemperatureId, BrightnessId, MoistureId, FertilityId}
  }

  /** The payload bytes a known kind id reads: one for moisture, two for the
      others. */
  function PayloadLength(id: uint16): nat {
    if id == MoistureId then 1 else 2
  }

  /** The reading a sub-record carries, by kind id; every other id, the
      battery and temperature-and-humidity kinds included, is unknown. */
  function Interpret(rec: SubRecord): (r: Result<Readings, Error>)
    ensures r.Ok? <==> KnownId(rec.id) && |rec.payload| >= PayloadLength(rec.id)
    ensures !KnownId(rec.id) ==> r == Err(UnknownMeasurement(rec.id))
    ensures KnownId(rec.id) && |rec.payload| < PayloadLength(rec.id) ==>
      r == Err(IndexOutOfRange(PayloadLength(rec.id) - 1, |rec.payload|))
    ensures r.Ok? && rec.id == TemperatureId ==> r.value == Readings(Some(LeInt16(rec.payload)), None, None, None)
    ensures r.Ok? && rec.id == BrightnessId ==> r.value == Readings(None, None, Some(LeUint16(rec.payload)), None)
    ensures r.Ok? && rec.id == MoistureId ==> r.value == Readings(None, Some(rec.payload[0]), None, None)
    ensures r.Ok? && rec.id == FertilityId ==> r.value == Readings(None, None, None, Some(LeUint16(rec.payload)))
  {
    var p := rec.payload;
    if rec.id == TemperatureId then
      if |p| < 2 then Err(IndexOutOfRange(1, |p|)) else Ok(Readings(Some(LeInt16(p)), None, None, None))
    else if rec.id == BrightnessId then
      if |p| < 2 then Err(IndexOutOfRange(1, |p|)) else Ok(Readings(None, None, Some(LeUint16(p)), None))
    else if rec.id == MoistureId then
      if |p| < 1 then Err(IndexOutOfRange(0, |p|)) else Ok(Readings(None, Some(p[0]), None, None))
    else if rec.id == FertilityId then
      if |p| < 2 then Err(IndexOutOfRange(1, |p|)) else Ok(Readings(None, None, None, Some(LeUint16(p))))
    else Err(UnknownMeasurement(rec.id))
  }

  /** Values(): absent unless the measurement flag is set; otherwise the
      reading of the sub-record, exactly one field of which is present. */
  function Values(x: Frame): (r: Result<Option<Readings>, Error>)
    ensures !HasFlag(x, MeasurementFlag) ==> r == Ok(None)
    ensures HasFlag(x, MeasurementFlag) && SubRecordOf(x).Err? ==> r == Err(SubRecordOf(x).error)
    ensures HasFlag(x, MeasurementFlag) && r.Ok? ==> r.value.Some? && ExactlyOne(r.value.value)
  {
    var rec :- SubRecordOf(x);
    if rec.None? then Ok(None)
    else
      var m :- Interpret(rec.value);
      Ok(Some(m))
  }

  /** On every frame whose sub-record decodes, the values are the reading of
      that sub-record's id and payload, or its error. */
  lemma ValuesOfSubRecord(x: Frame, rec: SubRecord)
    requires SubRecordOf(x) == Ok(Some(rec))
    ensures Values(x).Ok? <==> Interpret(rec).Ok?
    ensures Values(x).Ok? ==> Values(x).value == Some(Interpret(rec).value)
    ensures Values(x).Err? ==> Values(x).error == Interpret(rec).error
  {
  }

  /** Exactly one reading is present. */
  predicate ExactlyOne(m: Readings) {
    (if m.temperature.Some? then 1 else 0) + (if m.moisture.Some? then 1 else 0)
      + (if m.brightness.Some? then 1 else 0) + (if m.conductivity.Some? then 1 else 0) == 1
  }

  /** A frame in decoded form: the reference against which the accessors
      are checked. */
  datatype Advertisement = Advertisement(
    flags: nat,
    version: nat,
    productId: uint16,
    frameCounter: uint8,
    mac: Option<seq<uint8>>,
    capabilities: Option<uint8>,
    record: Option<SubRecord>)

  /** Every optional part is present exactly when its flag bit is set, and
      every field fits its width. */
  predicate WellFormed(a: Advertisement) {
    && a.flags < 0x1000 && a.version < 0x10
    && (a.mac.Some? <==> BitSet(a.flags, MacAddressFlag))
    && (a.mac.Some? ==> |a.mac.value| == 6)
    && (a.capabilities.Some? <==> BitSet(a.flags, CapabilitiesFlag))
    && (a.record.Some? <==> BitSet(a.flags, MeasurementFlag))
    && (a.record.Some? ==> |a.record.value.payload| < 0x100)
  }

  /** The six address octets in transmission order (last octet first). */
  function ReverseMac(mac: seq<uint8>): (r: seq<uint8>)
    requires |mac| == 6
    ensures |r| == 6 && forall i :: 0 <= i < 6 ==> r[i] == mac[5 - i]
  {
    seq(6, i requires 0 <= i < 6 => mac[5 - i])
  }

  /** The bytes of a sub-record: id, length byte, payload. */
  function EncodeSubRecord(rec: SubRecord): (b: seq<uint8>)
    requires |rec.payload| < 0x100
    ensures |b| == 3 + |rec.payload|
  {
    PutUint16(rec.id) + [|rec.payload|] + rec.payload
  }

  /** The frame a sensor broadcasts for an advertisement. */
  function Encode(a: Advertisement): (b: seq<uint8>)
    requires WellFormed(a)
    ensures |b| >= 5
  {
    PutUint16(a.flags + 0x1000 * a.version) + PutUint16(a.productId) + [a.frameCounter]
      + (if a.mac.Some? then ReverseMac(a.mac.value) else [])
      + (if a.capabilities.Some? then [a.capabilities.value] else [])
      + (if a.record.Some? then EncodeSubRecord(a.record.value) else [])
  }

  /** Every part of a frame, read through the accessors; the capability byte
      is taken only when flagged. */
  function Parse(x: Frame): (r: Result<Advertisement, Error>)
    ensures r.Ok? <==>
      && (HasFlag(x, MacAddressFlag) ==> |x.data| >= 11)
      && (HasFlag(x, CapabilitiesFlag) ==> CapabilitiesOffset(x) < |x.data|)
      && (HasFlag(x, MeasurementFlag) ==>
            ValuesOffset(x) + 3 <= |x.data| && ValuesOffset(x) + 3 + x.data[ValuesOffset(x) + 2] <= |x.data|)
  {
    var mac :- MacAddress(x);
    var caps :- if HasFlag(x, CapabilitiesFlag) then
        var c :- Capabilities(x); Ok(Some(c))
      else Ok(None);
    var rec :- SubRecordOf(x);
    Ok(Advertisement(Flags(x), Version(x), ProductID(x), FrameCounter(x), mac, caps, rec))
  }

  /** The parts of an encoded frame, by position. */
  lemma EncodeParts(a: Advertisement)
    requires WellFormed(a)
    ensures var b := Encode(a); var m := MacLength(a); var o := 5 + m + CapLength(a);
      && b[0..2] == PutUint16(a.flags + 0x1000 * a.version)
      && b[2..4] == PutUint16(a.productId)
      && b[4] == a.frameCounter
      && (a.mac.Some? ==> b[5..11] == ReverseMac(a.mac.value))
      && (a.capabilities.Some? ==> b[5 + m] == a.capabilities.value)
      && b[o..] == if a.record.Some? then EncodeSubRecord(a.record.value) else []
  {
    var head := PutUint16(a.flags + 0x1000 * a.version) + PutUint16(a.productId) + [a.frameCounter];
    var mac := if a.mac.Some? then ReverseMac(a.mac.value) else [];
    var cap := if a.capabilities.Some? then [a.capabilities.value] else [];
    var rec := if a.record.Some? then EncodeSubRecord(a.record.value) else [];
    ConcatParts(head, mac, cap, rec);
  }

  /** The pieces of a concatenation, found again by their offsets. */
  lemma ConcatParts(head: seq<uint8>, mac: seq<uint8>, cap: seq<uint8>, rec: seq<uint8>)
    requires |head| == 5
    ensures var b := head + mac + cap + rec; var o := 5 + |mac| + |cap|;
      && b[0..2] == head[0..2] && b[2..4] == head[2..4] && b[4] == head[4]
      && b[5..5 + |mac|] == mac && (|cap| > 0 ==> b[5 + |mac|] == cap[0])
      && b[o..] == rec
  {
  }

  function MacLength(a: Advertisement): nat { if a.mac.Some? then 6 else 0 }
  function CapLength(a: Advertisement): nat { if a.capabilities.Some? then 1 else 0 }

  /** The fixed header of an encoded frame decodes to the advertisement's
      flags, version, product id and counter. */
  lemma {:induction false} ParseEncodeHeader(a: Advertisement)
    requires WellFormed(a)
    ensures var x: Frame := XiaomiData(Encode(a));
      && Flags(x) == a.flags && Version(x) == a.version
      && ProductID(x) == a.productId && FrameCounter(x) == a.frameCounter
      && (forall f: Flag :: HasFlag(x, f) == BitSet(a.flags, f))
  {
    var x: Frame := XiaomiData(Encode(a));
    EncodeParts(a);
    LeUint16PutUint16(a.flags + 0x1000 * a.version);
    LeUint16PutUint16(a.productId);
    ControlWordParts(x, a.flags, a.version);
    FlagsAgree(x, a.flags);
  }

  /** The control word splits into flags and version. */
  lemma ControlWordParts(x: Frame, flags: nat, version: nat)
    requires flags < 0x1000 && version < 0x10 && ControlWord(x) == flags + 0x1000 * version
    ensures Flags(x) == flags && Version(x) == version
  {
  }

  lemma FlagsAgree(x: Frame, flags: nat)
    requires Flags(x) == flags
    ensures forall f: Flag :: HasFlag(x, f) == BitSet(flags, f)
  {
    forall f: Flag ensures HasFlag(x, f) == BitSet(flags, f) {
      assert HasFlag(x, f) == BitSet(Flags(x), f);
    }
  }

  lemma {:induction false} ParseEncodeSubRecord(a: Advertisement)
    requires WellFormed(a)
    ensures SubRecordOf(XiaomiData(Encode(a))) == Ok(a.record)
  {
    var x: Frame := XiaomiData(Encode(a));
    ParseEncodeHeader(a);
    EncodeParts(a);
    var o := 5 + MacLength(a) + CapLength(a);
    assert HasFlag(x, MacAddressFlag) == a.mac.Some?;
    assert HasFlag(x, CapabilitiesFlag) == a.capabilities.Some?;
    assert HasFlag(x, MeasurementFlag) == a.record.Some?;
    if a.record.Some? {
      assert ValuesOffset(x) == o;
      SubRecordAtEnd(x, o, a.record.value);
    }
  }

  /** A sub-record encoded at the values offset, at the end of the frame,
      is the one decoded. */
  lemma SubRecordAtEnd(x: Frame, o: nat, rec: SubRecord)
    requires HasFlag(x, MeasurementFlag) && ValuesOffset(x) == o && |rec.payload| < 0x100
    requires o <= |x.data| && x.data[o..] == EncodeSubRecord(rec)
    ensures SubRecordOf(x) == Ok(Some(rec))
  {
    assert x.data[o..o + 3 + |rec.payload|] == x.data[o..];
    SubRecordEncoding(x, rec);
  }

  /** The sub-record decoder finds `rec` exactly when its encoding lies at
      the values offset. */
  lemma SubRecordEncoding(x: Frame, rec: SubRecord)
    requires HasFlag(x, MeasurementFlag) && |rec.payload| < 0x100
    ensures var o := ValuesOffset(x);
      SubRecordOf(x) == Ok(Some(rec)) <==>
        o + 3 + |rec.payload| <= |x.data| && x.data[o..o + 3 + |rec.payload|] == EncodeSubRecord(rec)
  {
    var o := ValuesOffset(x);
    var n := |rec.payload|;
    if o + 3 + n <= |x.data| {
      SubRecordSlices(x.data, o, rec);
      LeUint16PutUint16(rec.id);
      if o + 3 <= |x.data| {
        PutUint16LeUint16(x.data[o..o + 2]);
      }
    }
  }

  /** A sub-record's encoding lies at offset o exactly when its id, its
      length byte and its payload do. */
  lemma SubRecordSlices(s: seq<uint8>, o: nat, rec: SubRecord)
    requires |rec.payload| < 0x100 && o + 3 + |rec.payload| <= |s|
    ensures var n := |rec.payload|;
      s[o..o + 3 + n] == EncodeSubRecord(rec) <==>
        s[o..o + 2] == PutUint16(rec.id) && s[o + 2] == n && s[o + 3..o + 3 + n] == rec.payload
  {
    var n := |rec.payload|;
    var d := s[o..o + 3 + n];
    var e := EncodeSubRecord(rec);
    assert d == s[o..o + 2] + [s[o + 2]] + s[o + 3..o + 3 + n];
    if d == e {
      assert s[o..o + 2] == d[0..2] == e[0..2] == PutUint16(rec.id);
      assert s[o + 3..o + 3 + n] == d[3..] == e[3..] == rec.payload;
    }
  }

  /** Decoding an encoded frame gives back every field: flag bits, version,
      product id, counter, address, capability byte and sub-record. */
  lemma {:induction false} ParseEncode(a: Advertisement)
    requires WellFormed(a)
    ensures New(Encode(a)).Ok?
    ensures Parse(New(Encode(a)).value) == Ok(a)
  {
    var x: Frame := XiaomiData(Encode(a));
    ParseEncodeHeader(a);
    EncodeParts(a);
    ParseEncodeSubRecord(a);
    if a.mac.Some? {
      assert MacAddress(x).value.value == a.mac.value;
    }
  }

  /** Conversely, whatever parses is the encoding of its parse, followed by
      any trailing bytes. */
  lemma {:induction false} EncodeParse(x: Frame)
    requires Parse(x).Ok?
    ensures WellFormed(Parse(x).value)
    ensures |Encode(Parse(x).value)| <= |x.data|
    ensures Encode(Parse(x).value) == x.data[..|Encode(Parse(x).value)|]
  {
    var a := Parse(x).value;
    ParsedWellFormed(x);
    ParsedBytes(x);
    var s := x.data;
    var m, c := MacLength(a), CapLength(a);
    var n := if a.record.Some? then 3 + |a.record.value.payload| else 0;
    FrameSplit(s, m, c, n);
    assert s[5..5 + m] == if a.mac.Some? then ReverseMac(a.mac.value) else [];
    assert s[5 + m..5 + m + c] == if a.capabilities.Some? then [a.capabilities.value] else [];
    assert s[5 + m + c..5 + m + c + n] == if a.record.Some? then EncodeSubRecord(a.record.value) else [];
  }

  /** A frame prefix cut into the header pieces and three optional parts. */
  lemma FrameSplit(s: seq<uint8>, m: nat, c: nat, n: nat)
    requires 5 + m + c + n <= |s|
    ensures s[..5 + m + c + n]
      == s[0..2] + s[2..4] + [s[4]] + s[5..5 + m] + s[5 + m..5 + m + c] + s[5 + m + c..5 + m + c + n]
  {
  }

  /** A parsed frame gives a well-formed advertisement. */
  lemma ParsedWellFormed(x: Frame)
    requires Parse(x).Ok?
    ensures WellFormed(Parse(x).value)
  {
    var a := Parse(x).value;
    assert forall f: Flag :: HasFlag(x, f) == BitSet(a.flags, f);
  }

  /** Where each part of a parsed advertisement lies in the frame. */
  lemma ParsedBytes(x: Frame)
    requires Parse(x).Ok?
    ensures var a := Parse(x).value; var o := 5 + MacLength(a) + CapLength(a);
      && x.data[0..2] == PutUint16(a.flags + 0x1000 * a.version)
      && x.data[2..4] == PutUint16(a.productId)
      && x.data[4] == a.frameCounter
      && (a.mac.Some? ==> |x.data| >= 11 && x.data[5..11] == ReverseMac(a.mac.value))
      && (a.capabilities.Some? ==> |x.data| > 5 + MacLength(a) && x.data[5 + MacLength(a)] == a.capabilities.value)
      && o <= |x.data|
      && (a.record.Some? ==>
            && o + 3 + |a.record.value.payload| <= |x.data|
            && |a.record.value.payload| < 0x100
            && x.data[o..o + 3 + |a.record.value.payload|] == EncodeSubRecord(a.record.value))
  {
    var a := Parse(x).value;
    PutUint16LeUint16(x.data[0..2]);
    var o := 5 + MacLength(a) + CapLength(a);
    assert HasFlag(x, MacAddressFlag) == a.mac.Some?;
    assert HasFlag(x, CapabilitiesFlag) == a.capabilities.Some?;
    assert HasFlag(x, MeasurementFlag) == a.record.Some?;
    if a.record.Some? {
      assert ValuesOffset(x) == o;
      assert |a.record.value.payload| < 0x100;
      SubRecordEncoding(x, a.record.value);
    }
  }

  /** Adding a multiple of 2^e does not change the bits below e. */
  lemma {:induction false} BitBelow(a: nat, k: nat, e: nat, i: nat)
    requires i < e
    ensures Bit(a + Pow2(e) * k, i) == Bit(a, i)
  {
    var t := Pow2(e - 1) * k;
    assert Pow2(e) * k == 2 * t;
    if i > 0 {
      assert (a + 2 * t) / 2 == a / 2 + t;
      BitBelow(a / 2, k, e - 1, i - 1);
    }
  }

  /** Above e, the bits of a + 2^e * k are those of k when a < 2^e. */
  lemma {:induction false} BitAbove(a: nat, k: nat, e: nat, j: nat)
    requires a < Pow2(e)
    ensures Bit(a + Pow2(e) * k, e + j) == Bit(k, j)
  {
    if e > 0 {
      var t := Pow2(e - 1) * k;
      assert Pow2(e) * k == 2 * t;
      assert (a + 2 * t) / 2 == a / 2 + t;
      BitAbove(a / 2, k, e - 1, j);
    }
  }

  /** Flag bits 0-7 are the bits of byte 0 and flag bits 8-11 the low bits
      of byte 1, as the source's masks test them. */
  /** The bit arithmetic behind HasFlag, on the two bytes alone. */
  lemma FlagBits(d0: uint8, d1: uint8, i: nat)
    requires i < 12
    ensures Bit((d0 + 0x100 * d1) % 0x1000, i) <==> if i < 8 then Bit(d0, i) else Bit(d1, i - 8)
  {
    var k := d1 % 0x10;
    assert Pow2(4) == 0x10 && Pow2(8) == 0x100;
    assert (d0 + 0x100 * d1) % 0x1000 == d0 + Pow2(8) * k;
    if i < 8 {
      BitBelow(d0, k, 8, i);
    } else {
      BitAbove(d0, k, 8, i - 8);
      assert d1 == k + Pow2(4) * (d1 / 0x10);
      BitBelow(k, d1 / 0x10, 4, i - 8);
    }
  }

  /** Without the capability flag, Capabilities() still reads a byte: the
      low byte of the sub-record's id when a sub-record follows. */
  lemma CapabilitiesWithoutFlag(a: Advertisement)
    requires WellFormed(a) && a.capabilities.None? && a.record.Some?
    ensures New(Encode(a)).Ok?
    ensures Capabilities(New(Encode(a)).value) == Ok(a.record.value.id % 0x100)
  {
    ParseEncode(a);
    var x := New(Encode(a)).value;
    var o := CapabilitiesOffset(x);
    assert Encode(a)[o..o + 2] == PutUint16(a.record.value.id);
  }

  /** The checks every sample frame of the sensor passes: the flags set are
      new-factory, MAC address, capabilities and measurement; version 2,
      product 0x0098, address c4:7c:8d:65:5d:79, capabilities 0x0d. */
  predicate FloraNormal(x: Frame) {
    && (forall f: Flag :: HasFlag(x, f) <==> f.Index() in {0, 4, 5, 6})
    && Version(x) == 2
    && ProductID(x) == 0x0098
    && MacAddress(x) == Ok(Some([0xc4, 0x7c, 0x8d, 0x65, 0x5d, 0x79]))
    && Capabilities(x) == Ok(0x0d)
  }

  /** The sample frames share their first twelve bytes but for the counter. */
  lemma FloraNormalPrefix(x: Frame)
    requires |x.data| >= 12
    requires x.data[0] == 0x71 && x.data[1] == 0x20 && x.data[2] == 0x98 && x.data[3] == 0x00
    requires x.data[5] == 0x79 && x.data[6] == 0x5d && x.data[7] == 0x65 && x.data[8] == 0x8d
    requires x.data[9] == 0x7c && x.data[10] == 0xc4 && x.data[11] == 0x0d
    ensures FloraNormal(x)
    ensures HasFlag(x, MeasurementFlag) && ValuesOffset(x) == 12
  {
    assert x.data[0..2] == [0x71, 0x20];
    assert Flags(x) == 0x071;
    FloraNormalFlags(x);
    var mac := MacAddress(x).value.value;
    assert mac == [x.data[10], x.data[9], x.data[8], x.data[7], x.data[6], x.data[5]];
    assert x.data[11] == 0x0d;
  }

  lemma FloraNormalFlags(x: Frame)
    requires Flags(x) == 0x071
    ensures forall f: Flag :: HasFlag(x, f) <==> f.Index() in {0, 4, 5, 6}
  {
    forall f: Flag
      ensures HasFlag(x, f) <==> f.Index() in {0, 4, 5, 6}
    {
      match f
      case NewFactory =>
      case Connected =>
      case Central =>
      case Encrypted =>
      case MacAddressFlag =>
      case CapabilitiesFlag =>
      case MeasurementFlag =>
      case CustomData =>
      case Subtitle =>
      case Binding =>
    }
  }

  /** A sample frame: the common header with the given counter, then a
      sub-record. */
  function FloraFrame(counter: uint8, id: uint16, payload: seq<uint8>): (d: seq<uint8>)
    requires |payload| < 0x100
    ensures |d| == 15 + |payload|
  {
    [0x71, 0x20, 0x98, 0x00, counter, 0x79, 0x5d, 0x65, 0x8d, 0x7c, 0xc4, 0x0d]
      + PutUint16(id) + [|payload| as uint8] + payload
  }

  /** A sample frame passes the common checks and its values are those of
      its sub-record. */
  lemma FloraSubRecord(counter: uint8, id: uint16, payload: seq<uint8>)
    requires |payload| < 0x100
    ensures New(FloraFrame(counter, id, payload)).Ok?
    ensures FloraNormal(New(FloraFrame(counter, id, payload)).value)
    ensures Values(New(FloraFrame(counter, id, payload)).value)
      == (var r :- Interpret(SubRecord(id, payload)); Ok(Some(r)))
  {
    var x := New(FloraFrame(counter, id, payload)).value;
    FloraNormalPrefix(x);
    LeUint16PutUint16(id);
    assert x.data[12..14] == PutUint16(id);
    assert x.data[15..15 + |payload|] == payload;
    ValuesOfSubRecord(x, SubRecord(id, payload));
  }

  /** 71209800da795d658d7cc40d0410021201: temperature 27.4 degrees. */
  lemma TemperatureVector()
    ensures New(SampleTemperature).Ok?
    ensures FloraNormal(New(SampleTemperature).value)
    ensures Values(New(SampleTemperature).value) == Ok(Some(Readings(Some(274), None, None, None)))
    ensures TemperatureValue(274) == 27.4
  {
    assert SampleTemperature == FloraFrame(0xda, TemperatureId, [0x12, 0x01]);
    FloraSubRecord(0xda, TemperatureId, [0x12, 0x01]);
  }

  /** 71209800da795d658d7cc40d041002e7ff: temperature -2.5 degrees. */
  lemma NegativeTemperatureVector()
    ensures New(SampleNegativeTemperature).Ok?
    ensures FloraNormal(New(SampleNegativeTemperature).value)
    ensures Values(New(SampleNegativeTemperature).value) == Ok(Some(Readings(Some(-25), None, None, None)))
    ensures TemperatureValue(-25) == -2.5
  {
    assert SampleNegativeTemperature == FloraFrame(0xda, TemperatureId, [0xe7, 0xff]);
    FloraSubRecord(0xda, TemperatureId, [0xe7, 0xff]);
  }

  /** 71209800d9795d658d7cc40d0910022e00: conductivity 0.0046 S/m. */
  lemma ConductivityVector()
    ensures New(SampleConductivity).Ok?
    ensures FloraNormal(New(SampleConductivity).value)
    ensures Values(New(SampleConductivity).value) == Ok(Some(Readings(None, None, None, Some(46))))
    ensures ConductivityValue(46) == 0.0046
  {
    assert SampleConductivity == FloraFrame(0xd9, FertilityId, [0x2e, 0x00]);
    FloraSubRecord(0xd9, FertilityId, [0x2e, 0x00]);
    assert LeUint16([0x2e, 0x00]) == 46;
  }

  /** 71209800d8795d658d7cc40d0810010d: moisture 13 percent. */
  lemma MoistureVector()
    ensures New(SampleMoisture).Ok?
    ensures FloraNormal(New(SampleMoisture).value)
    ensures Values(New(SampleMoisture).value) == Ok(Some(Readings(None, Some(13), None, None)))
  {
    assert SampleMoisture == FloraFrame(0xd8, MoistureId, [0x0d]);
    FloraSubRecord(0xd8, MoistureId, [0x0d]);
  }

  /** 71209800ef795d658d7cc40d071003fe4c00: brightness 0x4cfe lux; the
      third payload byte is ignored. */
  lemma BrightnessVector()
    ensures New(SampleBrightness).Ok?
    ensures FloraNormal(New(SampleBrightness).value)
    ensures Values(New(SampleBrightness).value) == Ok(Some(Readings(None, None, Some(0x4cfe), None)))
  {
    assert SampleBrightness == FloraFrame(0xef, BrightnessId, [0xfe, 0x4c, 0x00]);
    FloraSubRecord(0xef, BrightnessId, [0xfe, 0x4c, 0x00]);
  }

  const SampleTemperature: seq<uint8> :=
    [0x71, 0x20, 0x98, 0x00, 0xda, 0x79, 0x5d, 0x65, 0x8d, 0x7c, 0xc4, 0x0d, 0x04, 0x10, 0x02, 0x12, 0x01]
  const SampleNegativeTemperature: seq<uint8> :=
    [0x71, 0x20, 0x98, 0x00, 0xda, 0x79, 0x5d, 0x65, 0x8d, 0x7c, 0xc4, 0x0d, 0x04, 0x10, 0x02, 0xe7, 0xff]
  const SampleConductivity: seq<uint8> :=
    [0x71, 0x20, 0x98, 0x00, 0xd9, 0x79, 0x5d, 0x65, 0x8d, 0x7c, 0xc4, 0x0d, 0x09, 0x10, 0x02, 0x2e, 0x00]
  const SampleMoisture: seq<uint8> :=
    [0x71, 0x20, 0x98, 0x00, 0xd8, 0x79, 0x5d, 0x65, 0x8d, 0x7c, 0xc4, 0x0d, 0x08, 0x10, 0x01, 0x0d]
  const SampleBrightness: seq<uint8> :=
    [0x71, 0x20, 0x98, 0x00, 0xef, 0x79, 0x5d, 0x65, 0x8d, 0x7c, 0xc4, 0x0d, 0x07, 0x10, 0x03, 0xfe, 0x4c, 0x00]
}
