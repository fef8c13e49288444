/** The sensor-level pieces of miflora/miflora.go: recognising a Mi Flora
    sensor by name or address, the mode-change commands, and the
    fixed-length decoders of this file (which differ from those of
    miflora/model/model.go in their length policy). */
module Miflora {

  import opened Wrappers
  import opened Bytes
  import opened Errors
  import Model

  /** The commands written to the mode-change and history-control attributes. */
  const ModeBlinkLed: seq<uint8> := [0xfd, 0xff]
  const ModeRealtimeReadInit: seq<uint8> := [0xa0, 0x1f]
  const ModeHistoryReadInit: seq<uint8> := [0xa0, 0x00, 0x00]
  const ModeHistoryReadSuccess: seq<uint8> := [0xa2, 0x00, 0x00]
  const ModeHistoryReadFailed: seq<uint8> := [0xa3, 0x00, 0x00]

  /** The advertised name of the sensor and the vendor prefix of its address. */
  const DeviceName: string := "Flower care"
  const AddressPrefix: string := "C4:7C:8D"

  /** strings.ToUpper on one character, for the ASCII letters. */
  function UpperChar(c: char): char {
    if 'a' <= c <= 'z' then (c as int - 0x20) as char else c
  }

  /** strings.ToLower on one character, for the ASCII letters. */
  function LowerChar(c: char): char {
    if 'A' <= c <= 'Z' then (c as int + 0x20) as char else c
  }

  function ToUpper(s: string): (r: string)
    ensures |r| == |s|
    ensures forall i :: 0 <= i < |s| ==> r[i] == UpperChar(s[i])
  {
    seq(|s|, i requires 0 <= i < |s| => UpperChar(s[i]))
  }

  function ToLower(s: string): (r: string)
    ensures |r| == |s|
    ensures forall i :: 0 <= i < |s| ==> r[i] == LowerChar(s[i])
  {
    seq(|s|, i requires 0 <= i < |s| => LowerChar(s[i]))
  }

  /** strings.HasPrefix. */
  predicate HasPrefix(s: string, prefix: string) {
    |prefix| <= |s| && s[..|prefix|] == prefix
  }

  /** Sensor.isDevice: the advertised name is exactly "Flower care", or the
      address, upper-cased, starts with the vendor prefix. */
  predicate IsDevice(name: string, address: string)
    ensures IsDevice(name, address) <==>
      (|| name == DeviceName
       || (|address| >= |AddressPrefix| && forall i :: 0 <= i < |AddressPrefix| ==> UpperChar(address[i]) == AddressPrefix[i]))
  {
    name == DeviceName || HasPrefix(ToUpper(address), AddressPrefix)
  }

  /** The address test ignores letter case: an address and its upper- and
      lower-case forms are recognised alike. */
  lemma {:induction false} AddressCaseInsensitive(name: string, address: string)
    ensures IsDevice(name, address) == IsDevice(name, ToUpper(address))
    ensures IsDevice(name, address) == IsDevice(name, ToLower(address))
  {
    assert ToUpper(ToUpper(address)) == ToUpper(address);
    assert ToUpper(ToLower(address)) == ToUpper(address);
  }

  /** Only the first eight characters of the address matter. */
  lemma {:induction false} AddressPrefixOnly(name: string, a: string, b: string)
    requires |a| >= 8 && |b| >= 8 && a[..8] == b[..8]
    ensures IsDevice(name, a) == IsDevice(name, b)
  {
    assert ToUpper(a)[..8] == ToUpper(a[..8]);
    assert ToUpper(b)[..8] == ToUpper(b[..8]);
  }

  /** A lower-case vendor address is accepted whatever the name; the name
      test is exact, so "flower care" with a foreign address is not. */
  lemma IsDeviceExamples(name: string, rest: string)
    ensures IsDevice(name, "c4:7c:8d" + rest)
    ensures IsDevice(DeviceName, rest)
    ensures !IsDevice("flower care", "00:11:22:33:44:55")
  {
    assert ToUpper("c4:7c:8d" + rest)[..8] == AddressPrefix;
    assert ToUpper("00:11:22:33:44:55")[..8] == "00:11:22";
  }

  /** Measurement.UnmarshalBinary of this file: exactly sixteen bytes, laid
      out as `TT TT ?? LL LL ?? ?? MM CC CC` followed by six ignored bytes.
      The temperature is kept in tenths, as read, where the source stores it
      divided by ten as a float. */
  function MeasurementOf(data: seq<uint8>): (r: Result<Model.Fields, Error>)
    ensures r.Ok? <==> |data| == 16
    ensures r.Err? ==> r.error == WrongLength(|data|, 16)
    ensures r.Ok? ==> r.value == Model.Layout(data[..10])
  {
    if |data| != 16 then Err(WrongLength(|data|, 16))
    else
      assert data[..10][0..2] == data[0..2] && data[..10][3..5] == data[3..5];
      assert data[..10][8..10] == data[8..10];
      Ok(Model.Fields(LeInt16(data[0..2]), data[7], LeUint16(data[3..5]), LeUint16(data[8..10])))
  }

  /** The two live-measurement decoders agree on sixteen-byte values; the
      reader-based one also accepts ten to fifteen bytes and more than
      sixteen, which this one rejects. */
  lemma DecodersAgree(prev: Model.Fields, data: seq<uint8>)
    ensures MeasurementOf(data).Ok? ==> Model.Unmarshal(prev, data) == (MeasurementOf(data).value, None)
    ensures |data| >= 10 && |data| != 16 ==> MeasurementOf(data).Err? && Model.Unmarshal(prev, data).1.None?
  {
    Model.UnmarshalComplete(prev, data);
  }

  /** miflora.Measurement, decoded in place. */
  class Measurement {
    var temperature: Model.Temperature
    var moisture: uint8
    var light: uint16
    var conductivity: uint16

    function Value(): Model.Fields
      reads this
    {
      Model.Fields(temperature, moisture, light, conductivity)
    }

    constructor ()
      ensures Value() == Model.Fields(0, 0, 0, 0)
    {
      temperature, moisture, light, conductivity := 0, 0, 0, 0;
    }

    /** Rejects any length but sixteen before touching a field; with sixteen
        bytes every read succeeds, so the reader's error branches of the
        source cannot be taken and are not modelled. */
    method UnmarshalBinary(data: seq<uint8>) returns (err: Option<Error>)
      modifies this
      ensures err.None? <==> MeasurementOf(data).Ok?
      ensures err.Some? ==> err.value == MeasurementOf(data).error && Value() == old(Value())
      ensures err.None? ==> Value() == MeasurementOf(data).value
    {
      if |data| != 16 {
        return Some(WrongLength(|data|, 16));
      }
      var p := 0;
      var t := LeInt16(data[p..p + 2]);
      p := p + 2;
      p := p + 1;
      light := LeUint16(data[p..p + 2]);
      p := p + 2;
      p := p + 2;
      moisture := data[p];
      p := p + 1;
      conductivity := LeUint16(data[p..p + 2]);
      temperature := t;
      err := None;
    }
  }

  /** miflora.Firmware, decoded exactly as model.Firmware is. */
  class Firmware {
    var version: string
    var battery: uint8

    function Value(): Model.FirmwareInfo
      reads this
    {
      Model.FirmwareInfo(version, battery)
    }

    constructor ()
      ensures Value() == Model.FirmwareInfo("", 0)
    {
      version := "";
      battery := 0;
    }

    method UnmarshalBinary(data: seq<uint8>) returns (err: Option<Error>)
      modifies this
      ensures err.None? <==> Model.FirmwareOf(data).Ok?
      ensures err.Some? ==> err.value == Model.FirmwareOf(data).error && Value() == old(Value())
      ensures err.None? ==> Value() == Model.FirmwareOf(data).value
    {
      if |data| < 3 {
        return Some(TooShort(|data|, 3));
      }
      battery := data[0];
      version := Model.BytesToString(data[2..]);
      err := None;
    }
  }

  /** The history header decode in Sensor.History: a signed little-endian
      16-bit count in the first two bytes. */
  function HistoryHeaderLength(data: seq<uint8>): (r: Result<int16, Error>)
    ensures r.Ok? <==> |data| >= 2
    ensures r.Err? ==> r.error == ReadFailed(ReadingHistoryLength, Model.CauseAt(|data|, 0))
    ensures r.Ok? ==> (r.value < 0 <==> data[1] >= 0x80)
    ensures r.Ok? ==> Uint16Of(r.value) == LeUint16(data)
  {
    if |data| < 2 then Err(ReadFailed(ReadingHistoryLength, Model.CauseAt(|data|, 0)))
    else Ok(LeInt16(data[0..2]))
  }
}
