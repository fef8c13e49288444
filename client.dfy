/** The GATT client of miflora/client.go. The radio is an abstract device:
    every read or write it is asked for is appended to its trace, and it
    answers from a script of replies fixed in advance. Wall-clock readings
    are parameters, in nanoseconds since the Unix epoch. */
module Client {

  import opened Wrappers
  import opened Bytes
  import opened Errors
  import Model
  import Miflora

  /** A discovered characteristic and the value handle it is addressed by. */
  datatype Characteristic = Characteristic(uuid: string, valueHandle: uint16)
  datatype Service = Service(characteristics: seq<Characteristic>)

  /** The discovered profile: services in discovery order. */
  datatype Profile = Profile(services: seq<Service>)

  /** A characteristic's place in a profile. */
  datatype Location = Location(service: nat, characteristic: nat)

  predicate ValidLocation(p: Profile, l: Location) {
    l.service < |p.services| && l.characteristic < |p.services[l.service].characteristics|
  }

  function At(p: Profile, l: Location): Characteristic
    requires ValidLocation(p, l)
  {
    p.services[l.service].characteristics[l.characteristic]
  }

  /** Some characteristic of the profile has the value handle. */
  predicate HasHandle(p: Profile, handle: uint16) {
    exists s, c :: 0 <= s < |p.services| && 0 <= c < |p.services[s].characteristics|
      && p.services[s].characteristics[c].valueHandle == handle
  }

  /** findCharacteristicByValueHandle: the first characteristic, scanning
      services in order and each service's characteristics in order, whose
      value handle matches; none if there is no such characteristic. */
  method FindCharacteristicByValueHandle(p: Profile, handle: uint16) returns (r: Option<Location>)
    ensures r.Some? ==> ValidLocation(p, r.value) && At(p, r.value).valueHandle == handle
    ensures r.Some? ==> forall s, c ::
      0 <= s < |p.services| && 0 <= c < |p.services[s].characteristics|
      && (s < r.value.service || (s == r.value.service && c < r.value.characteristic))
      ==> p.services[s].characteristics[c].valueHandle != handle
    ensures r.None? <==> !HasHandle(p, handle)
  {
    var s := 0;
    while s < |p.services|
      invariant s <= |p.services|
      invariant forall s', c :: (0 <= s' < s && 0 <= c < |p.services[s'].characteristics|
        ==> p.services[s'].characteristics[c].valueHandle != handle)
    {
      var chars := p.services[s].characteristics;
      var c := 0;
      while c < |chars|
        invariant c <= |chars|
        invariant forall c' :: 0 <= c' < c ==> chars[c'].valueHandle != handle
      {
        if chars[c].valueHandle == handle {
          return Some(Location(s, c));
        }
        c := c + 1;
      }
      s := s + 1;
    }
    return None;
  }

  /** An operation the client asks the radio for. */
  datatype Op = WriteOp(handle: uint16, data: seq<uint8>) | ReadOp(handle: uint16)

  /** The device's answer to one operation. */
  datatype Reply = Done(data: seq<uint8>) | Failed(reason: string)

  function NextReply(replies: seq<Reply>): Reply {
    if replies == [] then Failed("no reply") else replies[0]
  }

  function Advance(replies: seq<Reply>): seq<Reply> {
    if replies == [] then [] else replies[1..]
  }

  /** The radio client: the log of operations performed and the replies it
      has yet to give. */
  class Device {
    var trace: seq<Op>
    var replies: seq<Reply>

    constructor (replies: seq<Reply>)
      ensures trace == [] && this.replies == replies
    {
      trace := [];
      this.replies := replies;
    }

    /** ReadCharacteristic or WriteCharacteristic. */
    method Perform(op: Op) returns (reply: Reply)
      modifies this
      ensures trace == old(trace) + [op]
      ensures reply == NextReply(old(replies)) && replies == Advance(old(replies))
    {
      trace := trace + [op];
      reply := NextReply(replies);
      replies := Advance(replies);
    }
  }

  /** What one or more operations do: the operations added to the trace, the
      replies left, and the result. */
  datatype Exchange<T> = Exchange(ops: seq<Op>, rest: seq<Reply>, result: Result<T, Error>)

  /** read: no operation and an error when the handle is unknown; otherwise
      one read, whose reply is the result. */
  function ReadExchange(p: Profile, handle: uint16, replies: seq<Reply>): (x: Exchange<seq<uint8>>)
    ensures !HasHandle(p, handle) ==> x == Exchange([], replies, Err(CharacteristicNotFound(handle)))
    ensures HasHandle(p, handle) ==> x.ops == [ReadOp(handle)] && x.rest == Advance(replies)
    ensures x.result.Ok? <==> HasHandle(p, handle) && NextReply(replies).Done?
    ensures x.result.Ok? ==> x.result.value == NextReply(replies).data
  {
    if !HasHandle(p, handle) then Exchange([], replies, Err(CharacteristicNotFound(handle)))
    else match NextReply(replies)
      case Done(d) => Exchange([ReadOp(handle)], Advance(replies), Ok(d))
      case Failed(why) => Exchange([ReadOp(handle)], Advance(replies), Err(Transport(why)))
  }

  /** write: no operation and an error when the handle is unknown; otherwise
      one write, which fails if the device says so. */
  function WriteExchange(p: Profile, handle: uint16, data: seq<uint8>, replies: seq<Reply>): (x: Exchange<()>)
    ensures !HasHandle(p, handle) ==> x == Exchange([], replies, Err(CharacteristicNotFound(handle)))
    ensures HasHandle(p, handle) ==> x.ops == [WriteOp(handle, data)] && x.rest == Advance(replies)
    ensures x.result.Ok? <==> HasHandle(p, handle) && NextReply(replies).Done?
  {
    if !HasHandle(p, handle) then Exchange([], replies, Err(CharacteristicNotFound(handle)))
    else match NextReply(replies)
      case Done(_) => Exchange([WriteOp(handle, data)], Advance(replies), Ok(()))
      case Failed(why) => Exchange([WriteOp(handle, data)], Advance(replies), Err(Transport(why)))
  }

  /** A command written to one attribute, then a read of another; the read
      is attempted only if the write succeeded. */
  function WriteThenRead(p: Profile, wh: uint16, cmd: seq<uint8>, rh: uint16, replies: seq<Reply>): Exchange<seq<uint8>> {
    var w := WriteExchange(p, wh, cmd, replies);
    if w.result.Err? then Exchange(w.ops, w.rest, Err(w.result.error))
    else
      var r := ReadExchange(p, rh, w.rest);
      Exchange(w.ops + r.ops, r.rest, r.result)
  }

  /** The write comes first, and nothing is read unless it went through: a
      read in the trace means the write was sent and acknowledged. */
  lemma {:induction false} WriteBeforeRead(p: Profile, wh: uint16, cmd: seq<uint8>, rh: uint16, replies: seq<Reply>)
    ensures var x := WriteThenRead(p, wh, cmd, rh, replies);
      && (ReadOp(rh) in x.ops ==>
           x.ops[0] == WriteOp(wh, cmd) && HasHandle(p, wh) && NextReply(replies).Done?)
      && (x.result.Ok? <==>
           HasHandle(p, wh) && NextReply(replies).Done? && HasHandle(p, rh) && NextReply(Advance(replies)).Done?)
      && (x.result.Ok? ==> x.ops == [WriteOp(wh, cmd), ReadOp(rh)] && x.result.value == NextReply(Advance(replies)).data)
  {
    var w := WriteExchange(p, wh, cmd, replies);
    if w.result.Ok? {
      var r := ReadExchange(p, rh, w.rest);
      assert w.ops + r.ops == [WriteOp(wh, cmd)] + r.ops;
    }
  }

  /** The six attribute handles the client uses. */
  datatype Handles = Handles(
    firmwareBattery: uint16,
    dataRead: uint16,
    modeChange: uint16,
    deviceTime: uint16,
    historyControl: uint16,
    historyRead: uint16)

  /** The command that selects history entry `pos`: 0xa1 and the position,
      little-endian. */
  function HistoryAddress(pos: uint16): (b: seq<uint8>)
    ensures |b| == 3 && b[0] == 0xa1
  {
    [0xa1] + PutUint16(pos)
  }

  lemma HistoryAddressRoundTrip(pos: uint16)
    ensures LeUint16(HistoryAddress(pos)[1..]) == pos
  {
    LeUint16PutUint16(pos);
    assert HistoryAddress(pos)[1..] == PutUint16(pos);
  }

  lemma HistoryAddressInjective(a: uint16, b: uint16)
    requires HistoryAddress(a) == HistoryAddress(b)
    ensures a == b
  {
    HistoryAddressRoundTrip(a);
    HistoryAddressRoundTrip(b);
  }

  /** The history-length reply: an unsigned little-endian count in the first
      two bytes; anything after is ignored. */
  function HistoryLengthOf(data: seq<uint8>): (r: Result<uint16, Error>)
    ensures r.Ok? <==> |data| >= 2
    ensures r.Err? ==> r.error == ReadFailed(ReadingHistoryLength, Model.CauseAt(|data|, 0))
    ensures r.Ok? ==> PutUint16(r.value) == data[..2]
  {
    if |data| < 2 then Err(ReadFailed(ReadingHistoryLength, Model.CauseAt(|data|, 0)))
    else
      PutUint16LeUint16(data[..2]);
      Ok(LeUint16(data[..2]))
  }

  /** The unsigned count here and the signed count of Sensor.History agree
      below 0x8000 and differ by 2^16 above. */
  lemma HistoryLengthSignedness(data: seq<uint8>)
    requires |data| >= 2
    ensures var u := HistoryLengthOf(data).value; var s := Miflora.HistoryHeaderLength(data).value;
      (u < 0x8000 ==> s == u) && (u >= 0x8000 ==> s == u - 0x1_0000)
  {
  }

  /** Go's integer division of a Duration by two, which truncates toward zero. */
  function HalfTowardZero(d: int): (h: int)
    ensures d >= 0 ==> 0 <= d - 2 * h <= 1
    ensures d < 0 ==> -1 <= d - 2 * h <= 0
    ensures d >= 0 ==> 0 <= h <= d
    ensures d < 0 ==> d <= h <= 0
  {
    if d >= 0 then d / 2 else -((-d) / 2)
  }

  const NanosPerSecond: int := 1_000_000_000

  /** DeviceTimeDiff after the read: the device's clock is a signed
      little-endian int32 of Unix seconds; the difference is the midpoint of
      the two local readings minus the device time. */
  function TimeDiffOf(data: seq<uint8>, start: int, end: int): (r: Result<int, Error>)
    ensures r.Ok? <==> |data| >= 4
    ensures r.Err? ==> r.error == ReadFailed(ReadingTimestamp, Model.CauseAt(|data|, 0))
  {
    if |data| < 4 then Err(ReadFailed(ReadingTimestamp, Model.CauseAt(|data|, 0)))
    else Ok(start + HalfTowardZero(end - start) - LeInt32(data) * NanosPerSecond)
  }

  /** The offset lies between what the first and the last local reading
      would give, so a slow read widens the uncertainty by its duration. */
  lemma TimeDiffBetween(data: seq<uint8>, start: int, end: int)
    requires |data| >= 4 && start <= end
    ensures var device := LeInt32(data) * NanosPerSecond;
      start - device <= TimeDiffOf(data, start, end).value <= end - device
  {
  }

  /** The decoding half of DeviceTimeDiff: binary.Read of an int32 from a
      fresh reader over the characteristic's value. */
  method DecodeTimeDiff(data: seq<uint8>, start: int, end: int) returns (r: Result<int, Error>)
    ensures r == TimeDiffOf(data, start, end)
  {
    var reader := new ByteReader(data);
    var t := reader.ReadFull(4);
    if t.Err? {
      return Err(ReadFailed(ReadingTimestamp, t.error));
    }
    assert t.value == data[..4];
    assert LeInt32(t.value) == LeInt32(data);
    r := Ok(start + HalfTowardZero(end - start) - LeInt32(t.value) * NanosPerSecond);
  }

  /** The GATT client: a discovered profile and the device it talks to. */
  class GattClient {
    const profile: Profile
    const handles: Handles
    const device: Device

    constructor (profile: Profile, handles: Handles, device: Device)
      ensures this.profile == profile && this.handles == handles && this.device == device
    {
      this.profile := profile;
      this.handles := handles;
      this.device := device;
    }

    /** read: the characteristic is looked up first; an unknown handle is
        an error and the device is not asked. */
    method Read(handle: uint16) returns (r: Result<seq<uint8>, Error>)
      modifies device
      ensures var x := ReadExchange(profile, handle, old(device.replies));
        device.trace == old(device.trace) + x.ops && device.replies == x.rest && r == x.result
    {
      var loc := FindCharacteristicByValueHandle(profile, handle);
      if loc.None? {
        return Err(CharacteristicNotFound(handle));
      }
      var reply := device.Perform(ReadOp(At(profile, loc.value).valueHandle));
      match reply
      case Done(d) => r := Ok(d);
      case Failed(why) => r := Err(Transport(why));
    }

    /** write, likewise. */
    method Write(handle: uint16, data: seq<uint8>) returns (r: Result<(), Error>)
      modifies device
      ensures var x := WriteExchange(profile, handle, data, old(device.replies));
        device.trace == old(device.trace) + x.ops && device.replies == x.rest && r == x.result
    {
      var loc := FindCharacteristicByValueHandle(profile, handle);
      if loc.None? {
        return Err(CharacteristicNotFound(handle));
      }
      var reply := device.Perform(WriteOp(At(profile, loc.value).valueHandle, data));
      match reply
      case Done(_) => r := Ok(());
      case Failed(why) => r := Err(Transport(why));
    }

    /** DeviceTimeDiff: `start` is the clock before the read, `end` the clock
        after it (taken only if the read succeeded). */
    method DeviceTimeDiff(start: int, end: int) returns (r: Result<int, Error>)
      modifies device
      ensures var x := ReadExchange(profile, handles.deviceTime, old(device.replies));
        && device.trace == old(device.trace) + x.ops && device.replies == x.rest
        && r == (if x.result.Err? then Err(x.result.error) else TimeDiffOf(x.result.value, start, end))
    {
      var data := Read(handles.deviceTime);
      if data.Err? {
        return Err(data.error);
      }
      r := DecodeTimeDiff(data.value, start, end);
    }

    /** Firmware: a read error or a decode error, never a partial record. */
    method Firmware() returns (r: Result<Model.Firmware, Error>)
      modifies device
      ensures var x := ReadExchange(profile, handles.firmwareBattery, old(device.replies));
        && device.trace == old(device.trace) + x.ops && device.replies == x.rest
        && (r.Ok? <==> x.result.Ok? && Model.FirmwareOf(x.result.value).Ok?)
        && (r.Ok? ==> fresh(r.value) && r.value.Value() == Model.FirmwareOf(x.result.value).value)
        && (x.result.Err? ==> r == Err(x.result.error))
        && (x.result.Ok? && r.Err? ==> r.error == Model.FirmwareOf(x.result.value).error)
    {
      var data := Read(handles.firmwareBattery);
      if data.Err? {
        return Err(data.error);
      }
      var firmware := new Model.Firmware();
      var err := firmware.UnmarshalBinary(data.value);
      if err.Some? {
        return Err(err.value);
      }
      r := Ok(firmware);
    }

    /** Measurement: the realtime-read command to the mode-change attribute,
        then the live data, decoded by the reader-based decoder. */
    method Measurement() returns (r: Result<Model.Measurement, Error>)
      modifies device
      ensures var x := WriteThenRead(profile, handles.modeChange, Miflora.ModeRealtimeReadInit,
                                     handles.dataRead, old(device.replies));
        && device.trace == old(device.trace) + x.ops && device.replies == x.rest
        && (x.result.Err? ==> r == Err(x.result.error))
        && (x.result.Ok? ==>
             var d := Model.Unmarshal(Model.Fields(0, 0, 0, 0), x.result.value);
             (r.Ok? <==> d.1.None?)
             && (r.Ok? ==> fresh(r.value) && r.value.Value() == d.0)
             && (r.Err? ==> Some(r.error) == d.1))
    {
      var w := Write(handles.modeChange, Miflora.ModeRealtimeReadInit);
      if w.Err? {
        return Err(w.error);
      }
      var data := Read(handles.dataRead);
      if data.Err? {
        return Err(data.error);
      }
      var measurement := new Model.Measurement();
      var reader := new ByteReader(data.value);
      var err := measurement.UnmarshalBinary(reader);
      if err.Some? {
        return Err(err.value);
      }
      r := Ok(measurement);
    }

    /** HistoryLength: the history-init command, then the count. */
    method HistoryLength() returns (r: Result<uint16, Error>)
      modifies device
      ensures var x := WriteThenRead(profile, handles.historyControl, Miflora.ModeHistoryReadInit,
                                     handles.historyRead, old(device.replies));
        && device.trace == old(device.trace) + x.ops && device.replies == x.rest
        && r == (if x.result.Err? then Err(x.result.error) else HistoryLengthOf(x.result.value))
    {
      var w := Write(handles.historyControl, Miflora.ModeHistoryReadInit);
      if w.Err? {
        return Err(w.error);
      }
      var data := Read(handles.historyRead);
      if data.Err? {
        return Err(data.error);
      }
      var reader := new ByteReader(data.value);
      var b := reader.ReadFull(2);
      if b.Err? {
        return Err(ReadFailed(ReadingHistoryLength, b.error));
      }
      assert b.value == data.value[..2];
      r := Ok(LeUint16(b.value));
    }

    /** HistoryMeasurement: the addressed command for `pos`, then the entry,
        decoded by `parse` (the historic-record decoder is not part of this
        model). */
    method HistoryMeasurement<H>(pos: uint16, parse: seq<uint8> -> Result<H, Error>) returns (r: Result<H, Error>)
      modifies device
      ensures var x := WriteThenRead(profile, handles.historyControl, HistoryAddress(pos),
                                     handles.historyRead, old(device.replies));
        && device.trace == old(device.trace) + x.ops && device.replies == x.rest
        && r == (if x.result.Err? then Err(x.result.error) else parse(x.result.value))
    {
      var w := Write(handles.historyControl, HistoryAddress(pos));
      if w.Err? {
        return Err(w.error);
      }
      var data := Read(handles.historyRead);
      if data.Err? {
        return Err(data.error);
      }
      r := parse(data.value);
    }
  }
}
