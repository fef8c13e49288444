/** The measurement and firmware records read from the sensor's GATT
    attributes, with their binary decoders, and the Result unit that is handed
    to the outputs (miflora/model/model.go). */
module Model {

  import opened Wrappers
  import opened Bytes
  import opened Errors

  /** Temperature in tenths of a degree Celsius (a fixed-point over int16). */
  type Temperature = int16

  /** Soil conductivity in units of 0.0001 S/m (a fixed-point over uint16). */
  type Conductivity = uint16

  /** The exact value of a Temperature in degrees Celsius. */
  function TemperatureValue(t: Temperature): (v: real)
    ensures v * 10.0 == t as real
  {
    t as real / 10.0
  }

  /** The exact value of a Conductivity in S/m. */
  function ConductivityValue(c: Conductivity): (v: real)
    ensures v * 10000.0 == c as real
    ensures v >= 0.0
  {
    c as real / 10000.0
  }

  lemma TemperatureValueIsInjective(a: Temperature, b: Temperature)
    requires TemperatureValue(a) == TemperatureValue(b)
    ensures a == b
  {
  }

  /** Go's string(b) for bytes that hold text, one character per byte. */
  function BytesToString(b: seq<uint8>): (s: string)
    ensures |s| == |b|
    ensures forall i :: 0 <= i < |b| ==> s[i] as int == b[i]
  {
    seq(|b|, i requires 0 <= i < |b| => b[i] as char)
  }

  /** The bytes of a string all of whose characters fit in one byte. */
  predicate IsByteString(s: string) {
    forall i :: 0 <= i < |s| ==> s[i] as int < 0x100
  }

  function StringToBytes(s: string): (b: seq<uint8>)
    requires IsByteString(s)
    ensures |b| == |s|
    ensures BytesToString(b) == s
  {
    seq(|s|, i requires 0 <= i < |s| => s[i] as int)
  }

  /** The firmware attribute: battery level and firmware version. */
  datatype FirmwareInfo = FirmwareInfo(version: string, battery: uint8)

  /** What Firmware.UnmarshalBinary makes of an attribute value: byte 0 is
      the battery level, byte 1 is skipped, the rest is the version. */
  function FirmwareOf(data: seq<uint8>): (r: Result<FirmwareInfo, Error>)
    ensures r.Err? <==> |data| < 3
    ensures r.Err? ==> r.error == TooShort(|data|, 3)
    ensures r.Ok? ==> r.value.battery == data[0] && |r.value.version| == |data| - 2
  {
    if |data| < 3 then Err(TooShort(|data|, 3))
    else Ok(FirmwareInfo(BytesToString(data[2..]), data[0]))
  }

  /** The attribute value a sensor sends for a firmware record; `gap` is the
      byte the decoder skips. */
  function EncodeFirmware(f: FirmwareInfo, gap: uint8): (data: seq<uint8>)
    requires IsByteString(f.version)
    ensures |data| == |f.version| + 2
  {
    [f.battery, gap] + StringToBytes(f.version)
  }

  lemma FirmwareRoundTrip(f: FirmwareInfo, gap: uint8)
    requires IsByteString(f.version) && f.version != []
    ensures FirmwareOf(EncodeFirmware(f, gap)) == Ok(f)
  {
    var data := EncodeFirmware(f, gap);
    assert data[2..] == StringToBytes(f.version);
  }

  lemma {:induction false} FirmwareEncodeDecode(data: seq<uint8>)
    requires |data| >= 3
    ensures IsByteString(FirmwareOf(data).value.version)
    ensures EncodeFirmware(FirmwareOf(data).value, data[1]) == data
  {
    var f := FirmwareOf(data).value;
    assert IsByteString(f.version);
    var enc := EncodeFirmware(f, data[1]);
    assert enc[2..] == StringToBytes(f.version);
    forall i | 2 <= i < |data|
      ensures enc[i] == data[i]
    {
      assert enc[i] == StringToBytes(f.version)[i - 2];
    }
  }

  /** model.Firmware, decoded in place by UnmarshalBinary. */
  class Firmware {
    var version: string
    var battery: uint8

    function Value(): FirmwareInfo
      reads this
    {
      FirmwareInfo(version, battery)
    }

    constructor ()
      ensures Value() == FirmwareInfo("", 0)
    {
      version := "";
      battery := 0;
    }

    /** Firmware.UnmarshalBinary: too short a value leaves the receiver as it
        was; otherwise both fields are overwritten. */
    method UnmarshalBinary(data: seq<uint8>) returns (err: Option<Error>)
      modifies this
      ensures err.None? <==> FirmwareOf(data).Ok?
      ensures err.Some? ==> err.value == FirmwareOf(data).error && Value() == old(Value())
      ensures err.None? ==> Value() == FirmwareOf(data).value
    {
      if |data| < 3 {
        return Some(TooShort(|data|, 3));
      }
      battery := data[0];
      version := BytesToString(data[2..]);
      err := None;
    }
  }

  /** The four readings of model.Measurement as plain fields, the form the
      GATT decoder fills in. */
  datatype Fields = Fields(temperature: Temperature, moisture: uint8, brightness: uint16, conductivity: Conductivity)

  /** The live-measurement layout `TT TT ?? LL LL ?? ?? MM CC CC`: what a
      complete decode of the first ten bytes yields. */
  function Layout(b: seq<uint8>): (f: Fields)
    requires |b| >= 10
    ensures f.moisture == b[7]
    ensures PutUint16(Uint16Of(f.temperature)) == b[0..2]
    ensures PutUint16(f.brightness) == b[3..5]
    ensures PutUint16(f.conductivity) == b[8..10]
  {
    PutUint16LeUint16(b[0..2]);
    PutUint16LeUint16(b[3..5]);
    PutUint16LeUint16(b[8..10]);
    Fields(LeInt16(b[0..2]), b[7], LeUint16(b[3..5]), LeUint16(b[8..10]))
  }

  /** The ten bytes a sensor sends for the given readings; `pad` holds the
      three bytes the decoder skips (positions 2, 5 and 6). */
  function EncodeMeasurement(f: Fields, pad: seq<uint8>): (b: seq<uint8>)
    requires |pad| == 3
    ensures |b| == 10
  {
    PutUint16(Uint16Of(f.temperature)) + [pad[0]] + PutUint16(f.brightness) + [pad[1], pad[2], f.moisture]
      + PutUint16(f.conductivity)
  }

  lemma MeasurementRoundTrip(f: Fields, pad: seq<uint8>)
    requires |pad| == 3
    ensures Layout(EncodeMeasurement(f, pad)) == f
  {
    var b := EncodeMeasurement(f, pad);
    LeUint16PutUint16(Uint16Of(f.temperature));
    LeUint16PutUint16(f.brightness);
    LeUint16PutUint16(f.conductivity);
    assert b[0..2] == PutUint16(Uint16Of(f.temperature));
    assert b[3..5] == PutUint16(f.brightness);
    assert b[8..10] == PutUint16(f.conductivity);
  }

  lemma MeasurementEncodeDecode(b: seq<uint8>)
    requires |b| == 10
    ensures EncodeMeasurement(Layout(b), [b[2], b[5], b[6]]) == b
  {
    var f := Layout(b);
    var e := EncodeMeasurement(f, [b[2], b[5], b[6]]);
    assert e[0..2] == b[0..2] && e[3..5] == b[3..5] && e[8..10] == b[8..10];
  }

  /** The reader error at a field that starts at offset `at` of a value of
      `length` bytes: EOF when no byte is left, otherwise a short read. */
  function CauseAt(length: nat, at: nat): ReadError {
    if length <= at then EOF else UnexpectedEOF
  }

  /** What Measurement.UnmarshalBinary does to the receiver `prev` when the
      reader holds `b`: each field read before the first failure is
      overwritten, the later ones keep their old values, and the error names
      the step that failed. A two-byte skip succeeds with a single byte left. */
  function Unmarshal(prev: Fields, b: seq<uint8>): (r: (Fields, Option<Error>))
    ensures r.1.Some? ==> r.1.value.ReadFailed?
    ensures r.1 == Some(ReadFailed(Skipping1, EOF)) <==> |b| == 2
    ensures r.1 == Some(ReadFailed(Skipping2, EOF)) <==> |b| == 5
    ensures r.1 == Some(ReadFailed(ReadingData, EOF)) <==> |b| in {0, 3, 6, 7, 8}
    ensures r.1 == Some(ReadFailed(ReadingData, UnexpectedEOF)) <==> |b| in {1, 4, 9}
  {
    if |b| < 2 then (prev, Some(ReadFailed(ReadingData, CauseAt(|b|, 0))))
    else
      var p1 := prev.(temperature := LeInt16(b[0..2]));
      if |b| < 3 then (p1, Some(ReadFailed(Skipping1, EOF)))
      else if |b| < 5 then (p1, Some(ReadFailed(ReadingData, CauseAt(|b|, 3))))
      else
        var p2 := p1.(brightness := LeUint16(b[3..5]));
        if |b| < 6 then (p2, Some(ReadFailed(Skipping2, EOF)))
        else if |b| < 8 then (p2, Some(ReadFailed(ReadingData, EOF)))
        else
          var p3 := p2.(moisture := b[7]);
          if |b| < 10 then (p3, Some(ReadFailed(ReadingData, CauseAt(|b|, 8))))
          else (p3.(conductivity := LeUint16(b[8..10])), None)
  }

  /** The decode succeeds exactly when ten bytes are available; it then
      yields the layout of the first ten, whatever the receiver held before
      and whatever follows. */
  lemma UnmarshalComplete(prev: Fields, b: seq<uint8>)
    ensures Unmarshal(prev, b).1.None? <==> |b| >= 10
    ensures |b| >= 10 ==> Unmarshal(prev, b).0 == Layout(b[..10])
  {
    if |b| >= 10 {
      assert b[..10][0..2] == b[0..2] && b[..10][3..5] == b[3..5] && b[..10][8..10] == b[8..10];
    }
  }

  /** A failed decode is not atomic: the fields before the failing step hold
      the new values, the others the old ones. */
  lemma UnmarshalPartial(prev: Fields, b: seq<uint8>)
    requires |b| < 10
    ensures var f := Unmarshal(prev, b).0;
      && (f.temperature == if |b| >= 2 then LeInt16(b[0..2]) else prev.temperature)
      && (f.brightness == if |b| >= 5 then LeUint16(b[3..5]) else prev.brightness)
      && (f.moisture == if |b| >= 8 then b[7] else prev.moisture)
      && f.conductivity == prev.conductivity
  {
  }

  /** model.Measurement with plain fields, decoded in place. */
  class Measurement {
    var temperature: Temperature
    var moisture: uint8
    var brightness: uint16
    var conductivity: Conductivity

    function Value(): Fields
      reads this
    {
      Fields(temperature, moisture, brightness, conductivity)
    }

    constructor ()
      ensures Value() == Fields(0, 0, 0, 0)
    {
      temperature, moisture, brightness, conductivity := 0, 0, 0, 0;
    }

    /** Measurement.UnmarshalBinary over an io.Reader. */
    method UnmarshalBinary(r: ByteReader) returns (err: Option<Error>)
      requires r.Valid()
      modifies this, r`pos
      ensures r.Valid()
      ensures (Value(), err) == Unmarshal(old(Value()), old(r.Remaining()))
      ensures err.None? ==> r.pos == old(r.pos) + 10
    {
      ghost var b := r.Remaining();
      ghost var p0 := r.pos;
      var t := r.ReadFull(2);
      if t.Err? {
        return Some(ReadFailed(ReadingData, t.error));
      }
      temperature := LeInt16(t.value);
      var n, e := r.Read(1);
      if e.Some? {
        return Some(ReadFailed(Skipping1, e.value));
      }
      assert r.pos == p0 + 3;
      ghost var rest := r.Remaining();
      assert rest == b[3..];
      var l := r.ReadFull(2);
      if l.Err? {
        return Some(ReadFailed(ReadingData, l.error));
      }
      assert l.value == rest[..2] == b[3..5];
      brightness := LeUint16(l.value);
      n, e := r.Read(2);
      if e.Some? {
        return Some(ReadFailed(Skipping2, e.value));
      }
      var m := r.ReadFull(1);
      if m.Err? {
        return Some(ReadFailed(ReadingData, m.error));
      }
      assert r.pos == p0 + 8;
      moisture := m.value[0];
      rest := r.Remaining();
      assert rest == b[8..];
      var c := r.ReadFull(2);
      if c.Err? {
        return Some(ReadFailed(ReadingData, c.error));
      }
      assert c.value == rest[..2] == b[8..10];
      conductivity := LeUint16(c.value);
      err := None;
    }
  }

  /** model.Measurement as the advertisement decoder and the outputs see it:
      each reading is present only if the frame carried it. */
  datatype Readings = Readings(
    temperature: Option<Temperature>,
    moisture: Option<uint8>,
    brightness: Option<uint16>,
    conductivity: Option<Conductivity>)

  /** model.Result: the unit delivered to the outputs. The timestamp is in
      nanoseconds since the Unix epoch. */
  datatype SensorResult = SensorResult(
    name: string,
    address: string,
    timestamp: Option<int>,
    firmware: Option<FirmwareInfo>,
    measurement: Option<Readings>)
}
