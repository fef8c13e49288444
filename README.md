# Mi Flora sensor core in Dafny

This project models the decoding core of the Mi Flora ("Flower care") plant-sensor exporter and proves properties of it. The Go repository covers:

- BLE advertisements, decoded by the Xiaomi "MiBeacon" service-data frame decoder;
- GATT attribute payloads: firmware/battery, live measurement and history length;
- the sensor recognition rule;
- the GATT client's command encoding, characteristic lookup and write-then-read sequencing;
- the ordered insert-or-replace sensor set;
- the typed context options;
- the mapping of a result to time-series samples.

Modules, one per file:

- `Wrappers`: `Option` and `Result`.
- `Bytes`:
  - the integer widths as subset types (`uint8`, `uint16`, `int16`, `uint32`, `int32`);
  - little-endian codecs and Go's two's-complement conversions;
  - `ByteReader`, a class with a cursor that behaves like `bytes.Reader` read through `io.ReadFull` (`binary.Read`) or through a plain `Read`.
- `Errors`: the error results. Where the Go code panics (an index out of range, an unknown measurement id), the model returns an error instead.
- `Model`: `miflora/model/model.go`.
  - Firmware and live-measurement decoding are classes whose `UnmarshalBinary` overwrites fields one by one.
  - Each class is specified by a pure function of the old state and the input.
  - The update of the measurement is partial, not atomic.
  - Temperature and conductivity stay raw `int16` tenths and raw `uint16` units of 1e-4 S/m. Their physical values are exact `real`s.
- `Advertisements`: `miflora/advertisements/advertisements.go`, as pure functions over the frame.
  - Includes a reference encoder, with round-trip lemmas in both directions.
  - The test vectors appear as lemmas.
- `Miflora`: the second decoder set of `miflora/miflora.go` (exactly 16 bytes), `isDevice`, the mode commands and the history header decode.
- `Client`: `miflora/client.go`.
  - The BLE client is an abstract `Device` that appends every operation to a trace and answers from a fixed script of replies.
  - Each client operation is specified by pure "exchange" functions.
- `SensorSet`: the ordered insert-or-replace set whose contract is fixed by `miflora/miflora_test.go`.
  - Binary search, then either a replace at the found position or an insert before it.
  - Specified by a recursive `Insert`.
- `Context`: the context options of `miflora/context/context.go`, as a chain of bindings with typed getters and defaults.
- `Tsdb`: `resultToMetrics` of `outputs/tsdb/tsdb.go`.

Two decoders for the live measurement exist in the source, with different length policies:

- `model.Measurement.UnmarshalBinary` reads from a reader. It succeeds on any input of at least 10 bytes and ignores the rest.
- `miflora.Measurement.UnmarshalBinary` demands exactly 16 bytes.

Both are modelled, and `Miflora.DecodersAgree` relates them: one decoder has a lower bound, the other an exact length.

The GATT decoders use plain fields, following `model.go:65-70`. The advertisement and output path uses `Readings`, with an `Option` per field, because `advertisements.go:160-170` and `tsdb.go:83,90` treat the fields as pointers.

## Model

| member | source | states |
|---|---|---|
| Bytes.LeUint16 | miflora/advertisements/advertisements.go:99-101 | `binary.LittleEndian.Uint16`: the low byte of the result is b[0], the high byte b[1] |
| Bytes.LeUint32 | miflora/client.go:55-56 | a little-endian 32-bit value is the low 16-bit half from bytes 0-1 plus the high half from bytes 2-3 |
| Bytes.PutUint16 | miflora/client.go:113-118 | `binary.LittleEndian.PutUint16`: two bytes, low byte first, that add up to the value |
| Bytes.LeUint16PutUint16 | miflora/client.go:113-118 | decoding what `PutUint16` wrote gives the value back |
| Bytes.PutUint16LeUint16 | miflora/advertisements/advertisements.go:148 | two bytes decoded and re-encoded are unchanged |
| Bytes.Int16 | miflora/advertisements/advertisements.go:160 | `int16(u)` keeps u modulo 2^16 and is negative exactly when u >= 0x8000 |
| Bytes.Uint16Of | miflora/advertisements/advertisements.go:160 | the unsigned view of an int16 converts back to it |
| Bytes.LeInt16 | miflora/model/model.go:84 | a little-endian int16 is the value whose unsigned view is the little-endian uint16 of the bytes, negative exactly when byte 1 has its top bit set |
| Bytes.LeInt32 | miflora/client.go:55-56 | a little-endian int32 equals the little-endian uint32 modulo 2^32, negative exactly when byte 3 has its top bit set |
| Bytes.Int32 | miflora/client.go:55-56 | `int32(u)` keeps u modulo 2^32 and is negative exactly when u >= 0x80000000 |
| Bytes.LeInt16RoundTrip | miflora/model/model.go:84 | a signed 16-bit value written little-endian is read back unchanged |
| Bytes.ByteReader.ReadFull | miflora/model/model.go:84-86 | `binary.Read` on a `bytes.Reader`: n bytes when n remain and the cursor advances by n; otherwise EOF if nothing was left, UnexpectedEOF if something was, and the reader is drained |
| Bytes.ByteReader.Read | miflora/model/model.go:89-91 | `Reader.Read`: EOF only at the end, otherwise a short read of min(n, remaining) bytes with no error |
| Model.TemperatureValue | miflora/model/model.go:37-41 | the temperature in °C times 10 is the raw int16 |
| Model.ConductivityValue | miflora/model/model.go:51-55 | the conductivity in S/m times 10000 is the raw uint16, and it is never negative |
| Model.TemperatureValueIsInjective | miflora/model/model.go:37-41 | distinct raw temperatures have distinct values |
| Model.BytesToString | miflora/model/model.go:33 | `string(data[2:])`, one character per byte with the byte's code |
| Model.StringToBytes | miflora/model/model.go:33 | the inverse of that conversion on byte-range strings |
| Model.FirmwareOf | miflora/model/model.go:26-35 | fails exactly when there are fewer than 3 bytes, with that length; otherwise battery is byte 0 and the version has length \|data\| - 2 |
| Model.EncodeFirmware | miflora/model/model.go:32-33 | the reference layout (battery, a skipped byte, version) has length \|version\| + 2 |
| Model.FirmwareRoundTrip | miflora/model/model.go:32-33 | decoding an encoded record with a non-empty version gives it back |
| Model.FirmwareEncodeDecode | miflora/model/model.go:27-34 | every payload of at least 3 bytes is the encoding of its decode, given the skipped byte |
| Model.Firmware.constructor | miflora/model/model.go:21-24 | a zero record |
| Model.Firmware.UnmarshalBinary | miflora/model/model.go:26-35 | an error exactly when `FirmwareOf` fails, leaving the receiver untouched; otherwise the receiver holds `FirmwareOf`'s record |
| Model.Layout | miflora/model/model.go:83-108 | `TT TT ?? LL LL ?? ?? MM CC CC`: temperature from bytes 0-1, brightness 3-4, moisture 7, conductivity 8-9 |
| Model.EncodeMeasurement | miflora/model/model.go:83 | the reference 10-byte layout with three padding bytes |
| Model.MeasurementRoundTrip | miflora/model/model.go:83-108 | decoding an encoded measurement gives it back, whatever the padding |
| Model.MeasurementEncodeDecode | miflora/model/model.go:83-108 | any 10 bytes are the encoding of their decode with their own padding bytes |
| Model.Unmarshal | miflora/model/model.go:82-110 | the error after a reader decode is always a read failure; it names the skipped byte or the field being read and is EOF or UnexpectedEOF by the input length (EOF at 0, 2, 3, 5-8 bytes, UnexpectedEOF at 1, 4 and 9 bytes) |
| Model.UnmarshalComplete | miflora/model/model.go:82-110 | the reader decode succeeds exactly when at least 10 bytes are available, and then gives the 10-byte layout, ignoring the rest |
| Model.UnmarshalPartial | miflora/model/model.go:84-108 | on a shorter input, the fields decoded before the failure are overwritten and the others keep their old values, for every length |
| Model.Measurement.constructor | miflora/model/model.go:65-70 | all four fields zero |
| Model.Measurement.UnmarshalBinary | miflora/model/model.go:82-110 | the new fields and the error are `Unmarshal` of the old fields and the reader's remaining bytes; on success the reader advanced by exactly 10 |
| Advertisements.New | miflora/advertisements/advertisements.go:38-47 | fails exactly on buffers shorter than 5 bytes; otherwise wraps the buffer unchanged |
| Advertisements.ControlWord | miflora/advertisements/advertisements.go:53-55 | the frame-control word is the little-endian uint16 whose bytes are data[0..2] |
| Advertisements.Flags | miflora/advertisements/advertisements.go:53-55 | below 2^12, and together with `Version` rebuilds the control word |
| Advertisements.Version | miflora/advertisements/advertisements.go:95-97 | the high 4 bits: below 16 |
| Advertisements.ProductID | miflora/advertisements/advertisements.go:99-101 | the little-endian uint16 whose bytes are data[2..4] |
| Advertisements.FrameCounter | miflora/advertisements/advertisements.go:103-105 | byte 4 of the frame; its contract is `ParseEncodeHeader`, which reads back the encoded counter |
| Advertisements.MacAddress | miflora/advertisements/advertisements.go:111-121 | absent exactly when the MAC flag is clear; otherwise `mac[i] == data[10-i]`, or an out-of-range error if the frame is too short |
| Advertisements.CapabilitiesOffset | miflora/advertisements/advertisements.go:123-129 | 11 if the MAC flag is set, else 5 |
| Advertisements.Capabilities | miflora/advertisements/advertisements.go:131-133 | the byte at the capability offset, read whether or not the capability flag is set; an error exactly when it is out of range |
| Advertisements.ValuesOffset | miflora/advertisements/advertisements.go:135-141 | the capability offset, plus one if the capability flag is set |
| Advertisements.SubRecordOf | miflora/advertisements/advertisements.go:143-154 | absent when the measurement flag is clear; otherwise the id, length and payload at the values offset, or an error when either the header or the payload runs past the end |
| Advertisements.Interpret | miflora/advertisements/advertisements.go:156-173 | succeeds exactly when the id is one of 0x1004, 0x1007, 0x1008, 0x1009 and the payload holds its field (1 byte for moisture, 2 otherwise); any other id gives an unknown-measurement error and a short payload an index-out-of-range error; on success 0x1004 gives the signed temperature, 0x1007 brightness, 0x1008 moisture from the first payload byte, 0x1009 conductivity |
| Advertisements.Values | miflora/advertisements/advertisements.go:143-176 | absent when the measurement flag is clear; a flagged frame whose sub-record cannot be read fails with that error; on success exactly one reading is present |
| Advertisements.ValuesOfSubRecord | miflora/advertisements/advertisements.go:143-175 | for a frame whose sub-record is read, `Values` succeeds exactly when that sub-record's id and payload are interpreted, with the same reading or the same error |
| Advertisements.ReverseMac | miflora/advertisements/advertisements.go:116-119 | the six MAC bytes in reverse order |
| Advertisements.EncodeSubRecord | miflora/advertisements/advertisements.go:147-154 | the reference sub-record layout: id, length byte, payload |
| Advertisements.Encode | miflora/advertisements/advertisements.go:53-154 | the reference frame encoder yields a frame of at least 5 bytes |
| Advertisements.EncodeParts | miflora/advertisements/advertisements.go:99-154 | where each field of an encoded frame lies |
| Advertisements.Parse | miflora/advertisements/advertisements.go:38-154 | decoding every accessor succeeds exactly when each flagged part (MAC address, capability byte, sub-record header and payload) lies inside the frame |
| Advertisements.ParseEncodeHeader | miflora/advertisements/advertisements.go:53-141 | the header accessors return the encoded flags, version, product id, counter, MAC and capability |
| Advertisements.ParseEncodeSubRecord | miflora/advertisements/advertisements.go:143-154 | the sub-record decoder returns the encoded sub-record |
| Advertisements.ParseEncode | miflora/advertisements/advertisements.go:38-154 | every well-formed advertisement survives encode then decode |
| Advertisements.SubRecordEncoding | miflora/advertisements/advertisements.go:143-154 | with the measurement flag set, the sub-record decoder yields a given record exactly when that record's encoding lies at the values offset |
| Advertisements.EncodeParse | miflora/advertisements/advertisements.go:38-154 | every decodable frame starts with the encoding of its decode (trailing bytes are ignored) |
| Advertisements.ParsedWellFormed | miflora/advertisements/advertisements.go:38-154 | a decoded frame has each optional part exactly when its flag is set |
| Advertisements.ParsedBytes | miflora/advertisements/advertisements.go:38-154 | each decoded part is read from its own slice of the frame: header, reversed MAC, capability byte, sub-record |
| Advertisements.BitBelow | miflora/advertisements/advertisements.go:57-93 | adding a multiple of 2^e does not change the bits below e |
| Advertisements.BitAbove | miflora/advertisements/advertisements.go:57-93 | bit e+j of a + 2^e·k is bit j of k when a < 2^e |
| Advertisements.HasFlag | miflora/advertisements/advertisements.go:57-93 | flag i (`1 << i`, newFactory … binding) is set exactly when bit i of byte 0 is, for i < 8, and bit i-8 of byte 1 otherwise |
| Advertisements.FlagBits | miflora/advertisements/advertisements.go:53-55 | bit i of the low 12 bits of a little-endian word is bit i of byte 0 or bit i-8 of byte 1 |
| Advertisements.CapabilitiesWithoutFlag | miflora/advertisements/advertisements.go:131-133 | without the capability flag, `Capabilities` returns the low byte of the sub-record id |
| Advertisements.FloraNormalPrefix | miflora/advertisements/advertisements_test.go:11-22 | the common prefix of the test vectors has the flags newFactory, MAC, capabilities and measurement, version 2, product 0x0098, MAC c4:7c:8d:65:5d:79 and capabilities 0x0d |
| Advertisements.FloraNormalFlags | miflora/advertisements/advertisements_test.go:11-22 | with flags 0x071 exactly the flags 0, 4, 5 and 6 are set |
| Advertisements.FloraSubRecord | miflora/advertisements/advertisements_test.go:82-94 | any frame with the sample prefix and a sub-record passes the common checks, and its values are those the sub-record's id and payload give |
| Advertisements.TemperatureVector | miflora/advertisements/advertisements_test.go:41-48 | the vector decodes as flora-normal with raw temperature 274, that is 27.4 °C |
| Advertisements.NegativeTemperatureVector | miflora/advertisements/advertisements_test.go:49-56 | raw temperature -25, that is -2.5 °C |
| Advertisements.ConductivityVector | miflora/advertisements/advertisements_test.go:57-64 | raw conductivity 46, that is 0.0046 S/m |
| Advertisements.MoistureVector | miflora/advertisements/advertisements_test.go:65-72 | moisture 13 |
| Advertisements.BrightnessVector | miflora/advertisements/advertisements_test.go:73-80 | brightness 0x4cfe |
| Miflora.ToUpper | miflora/miflora.go:288 | `strings.ToUpper` on ASCII: each character upper-cased, length kept |
| Miflora.ToLower | miflora/miflora.go:288 | lower-casing, used to state case-insensitivity |
| Miflora.IsDevice | miflora/miflora.go:283-293 | a device exactly when the name is "Flower care" or the first 8 characters of the address, upper-cased, are "C4:7C:8D" |
| Miflora.AddressCaseInsensitive | miflora/miflora.go:283-293 | recognition does not depend on the case of the address |
| Miflora.AddressPrefixOnly | miflora/miflora.go:288 | only the first 8 characters of the address matter |
| Miflora.IsDeviceExamples | miflora/miflora.go:283-310 | a lower-case "c4:7c:8d" address is accepted with any name; the exact name "Flower care" is accepted with any address; the name test is case-sensitive |
| Miflora.MeasurementOf | miflora/miflora.go:84-112 | succeeds exactly on 16 bytes, then gives the 10-byte layout; otherwise a wrong-length error |
| Miflora.DecodersAgree | miflora/miflora.go:86-88 | on 16 bytes both decoders agree; on 10-15 or more than 16 bytes this one fails where the reader decoder succeeds |
| Miflora.Measurement.constructor | miflora/miflora.go:77-82 | all fields zero |
| Miflora.Measurement.UnmarshalBinary | miflora/miflora.go:84-112 | an error exactly when the length is not 16, with no field written; otherwise the fields are `MeasurementOf`'s |
| Miflora.Firmware.constructor | miflora/miflora.go:114-117 | a zero record |
| Miflora.Firmware.UnmarshalBinary | miflora/miflora.go:120-128 | the same contract as the model's firmware decoder |
| Miflora.HistoryHeaderLength | miflora/miflora.go:228-231 | an error exactly when fewer than 2 bytes; otherwise the signed value whose unsigned view is the LE uint16, negative exactly when byte 1 >= 0x80 |
| Client.FindCharacteristicByValueHandle | miflora/client.go:18-27 | a found location has the handle and no earlier characteristic (services then characteristics in order) has it; none exactly when no characteristic has it |
| Client.Device.constructor | miflora/client.go:13-16 | an empty trace and the given replies |
| Client.Device.Perform | miflora/client.go:35 | the operation is appended to the trace and the next scripted reply is consumed |
| Client.ReadExchange | miflora/client.go:29-36 | an unknown handle gives a not-found error with no operation; otherwise one read, whose reply is the result |
| Client.WriteExchange | miflora/client.go:38-45 | an unknown handle gives a not-found error with no operation; otherwise one write, which fails exactly if the device says so |
| Client.WriteThenRead | miflora/client.go:77-93 | the write, then the read only if the write went through; its contract is `WriteBeforeRead` |
| Client.WriteBeforeRead | miflora/client.go:77-93 | in a write-then-read, a read happens only after a write that was sent and acknowledged; success needs both, and the trace is then the write followed by the read |
| Client.HistoryAddress | miflora/client.go:113-118 | three bytes starting with 0xa1 |
| Client.HistoryAddressRoundTrip | miflora/client.go:113-118 | bytes 1-2 decoded little-endian give back the position |
| Client.HistoryAddressInjective | miflora/client.go:113-118 | distinct positions give distinct commands |
| Client.HistoryLengthOf | miflora/client.go:105-110 | an error exactly when fewer than 2 bytes; otherwise the uint16 whose little-endian bytes are the first two |
| Client.HistoryLengthSignedness | miflora/miflora.go:228-231 | the signed count of `Sensor.History` equals the unsigned count below 0x8000 and is 2^16 less above |
| Client.HalfTowardZero | miflora/client.go:60 | `Duration / 2` truncates toward zero: for d >= 0, d - 2h is 0 or 1; for d < 0 it is 0 or -1; the half has the sign of d and is no larger in size |
| Client.TimeDiffOf | miflora/client.go:55-60 | an error exactly when fewer than 4 bytes are read |
| Client.TimeDiffBetween | miflora/client.go:47-61 | the offset lies between "start minus device time" and "end minus device time" |
| Client.GattClient.constructor | miflora/client.go:13-16 | a client over a profile and a device |
| Client.GattClient.Read | miflora/client.go:29-36 | trace, replies and result are those of `ReadExchange` |
| Client.GattClient.Write | miflora/client.go:38-45 | trace, replies and result are those of `WriteExchange` |
| Client.DecodeTimeDiff | miflora/client.go:55-60 | decoding through a fresh reader gives `TimeDiffOf` of the data |
| Client.GattClient.DeviceTimeDiff | miflora/client.go:47-61 | a read error is passed on; otherwise the result is `TimeDiffOf` of the reply |
| Client.GattClient.Firmware | miflora/client.go:63-75 | a read error or a decode error, never a partial record; on success a fresh record holding `FirmwareOf` of the reply |
| Client.GattClient.Measurement | miflora/client.go:77-93 | the realtime-init write to the mode-change handle, then the data read; a failed write means no read; on success a fresh measurement holding the reader decode of the reply |
| Client.GattClient.HistoryLength | miflora/client.go:95-111 | history-init write, then read; the result is `HistoryLengthOf` of the reply |
| Client.GattClient.HistoryMeasurement | miflora/client.go:119-135 | writes `HistoryAddress(pos)` before reading history; any error passes through with no result |
| SensorSet.Less | miflora/miflora_test.go:111-119 | the byte-wise string order that keeps the set sorted; its properties are the lemmas below |
| SensorSet.LessPrefix | miflora/miflora_test.go:111-119 | a proper prefix sorts before the longer address |
| SensorSet.LessIrreflexive | miflora/miflora_test.go:111-119 | no address sorts before itself |
| SensorSet.LessAsymmetric | miflora/miflora_test.go:111-119 | the string order is asymmetric |
| SensorSet.LessTotal | miflora/miflora_test.go:111-119 | distinct addresses are ordered one way or the other |
| SensorSet.LessTransitive | miflora/miflora_test.go:111-119 | the string order is transitive |
| SensorSet.SortedDistinct | miflora/miflora_test.go:111-119 | a sorted set holds no address twice |
| SensorSet.Insert | miflora/miflora_test.go:67-121 | the reference insert-or-replace on a sorted set; its contract is `InsertContents`, `InsertKeepsSorted`, `InsertAddresses` and `InsertLength` |
| SensorSet.InsertContents | miflora/miflora_test.go:82-91 | the inserted sensor is present; every entry is it or an old entry; every old entry with another address stays |
| SensorSet.InsertKeepsSorted | miflora/miflora_test.go:111-119 | insertion keeps the set strictly sorted by address |
| SensorSet.ReplaceHeadSorted | miflora/miflora_test.go:82-91 | replacing the entry with the same address keeps the order |
| SensorSet.PrependSorted | miflora/miflora_test.go:94-100 | a smaller address in front keeps the order |
| SensorSet.ConsSorted | miflora/miflora_test.go:103-109 | inserting behind a smaller head keeps the order |
| SensorSet.InsertAddresses | miflora/miflora_test.go:73-109 | the address set grows by exactly the new address |
| SensorSet.InsertLength | miflora/miflora_test.go:73-109 | the length is kept if the address was present (replacement) and grows by one otherwise |
| SensorSet.SortedBelow | miflora/miflora_test.go:111-119 | in a sorted set, everything before an address smaller than x is smaller than x |
| SensorSet.SortedAbove | miflora/miflora_test.go:111-119 | everything after an address not smaller than x is not smaller than x |
| SensorSet.InsertSplit | miflora/miflora_test.go:67-121 | at the search position, insert means replacing the entry with x's address, or putting x before the first larger address |
| SensorSet.InsertSplitStep | miflora/miflora_test.go:67-121 | the split of the tail, put behind the head, is the split of the whole set |
| SensorSet.SplitsAtTail | miflora/miflora_test.go:111-119 | the search position moves back by one on the tail |
| SensorSet.SplitFindsAddress | miflora/miflora_test.go:82-91 | the address is present exactly when the search stops on it |
| SensorSet.SearchPosition | miflora/miflora_test.go:67-121 | the binary search finds the first address not smaller than x's |
| SensorSet.InsertSorted | miflora/miflora_test.go:67-121 | the result is `Insert` of the set and the sensor, and `existed` is true exactly when the address was present |
| SensorSet.InsertScenario | miflora/miflora_test.go:67-121 | inserting b, b ("replace"), a and c gives lengths 1, 1, 2, 3, existed only on the second insert, and the final order a, b ("replace"), c |
| Context.Lookup | miflora/context/context.go:24-33 | `ctx.Value(key)`: a non-nil answer was bound to the key somewhere in the chain |
| Context.ContextWithScanTimeout | miflora/context/context.go:20-22 | the new context maps the scan-timeout key to the duration and every other key as before |
| Context.ScanTimeoutFromContext | miflora/context/context.go:24-33 | the bound duration if the key holds one; 5 s for a nil context, a missing key or a value of another type; anything but 5 s was bound in the chain |
| Context.ContextWithScanPassive | miflora/context/context.go:35-37 | the new context maps the passive-scan key to the flag and every other key as before |
| Context.ScanPassiveFromContext | miflora/context/context.go:39-48 | the bound flag if the key holds a bool; false otherwise; true only if bound in the chain |
| Context.ContextWithExpectedSensors | miflora/context/context.go:50-52 | the new context maps the expected-sensors key to the count and every other key as before |
| Context.ExpectedSensorsFromContext | miflora/context/context.go:54-63 | the bound count if the key holds an int64; 0 otherwise; a non-zero count was bound in the chain |
| Context.ContextWithSensorNames | miflora/context/context.go:65-67 | the new context maps the sensor-names key to the list and every other key as before |
| Context.SensorsNamesFromContext | miflora/context/context.go:69-78 | the bound list if the key holds a string list; empty otherwise; a non-empty list was bound in the chain |
| Context.ContextWithResultChannel | miflora/context/context.go:80-82 | the new context maps the result-channel key to the channel and every other key as before |
| Context.ResultChannelFromContext | miflora/context/context.go:84-93 | the bound channel if the key holds one; nil otherwise; a non-nil channel was bound in the chain |
| Context.Set | miflora/context/context.go:20-22 | a binding shadows its key and leaves every other key's lookup unchanged |
| Context.GetAfterSet | miflora/context/context.go:20-93 | each getter returns what its setter stored |
| Context.LastSetWins | miflora/context/context.go:20-33 | the later of two settings is the one read |
| Context.OtherKeysIndependent | miflora/context/context.go:10-18 | a binding under another key, including another package's key, changes no other getter |
| Context.Defaults | miflora/context/context.go:24-93 | nil and background contexts give 5 s, false, 0, an empty list and a nil channel |
| Context.WrongTypeGivesDefault | miflora/context/context.go:24-93 | for each of the five getters, a value of another type under its key gives its default |
| Tsdb.Millis | outputs/tsdb/tsdb.go:34-37 | whole milliseconds, rounded down |
| Tsdb.SampleTime | outputs/tsdb/tsdb.go:34-37 | the result's own timestamp, else now, in whole milliseconds rounded down |
| Tsdb.FirmwareMetrics | outputs/tsdb/tsdb.go:50-68 | two metrics, each with the sample time, the name and address labels, and the version label only on info |
| Tsdb.MeasurementMetrics | outputs/tsdb/tsdb.go:70-99 | four metrics, each with the sample time, the name and address labels and no version label |
| Tsdb.ResultToMetrics | outputs/tsdb/tsdb.go:31-102 | 2·[firmware] + 4·[measurement] metrics, all with the result's timestamp or else now, all with the name and address labels, and the version label only on the info metric |
| Tsdb.AdvertisedReadingsIncomplete | miflora/advertisements/advertisements.go:143-176 | a measurement decoded from one advertisement never holds all four readings that outputs/tsdb/tsdb.go:70-98 dereferences |
| Tsdb.MetricOrder | outputs/tsdb/tsdb.go:50-99 | info and battery first, then conductivity, brightness, moisture and temperature |
| Tsdb.MetricValues | outputs/tsdb/tsdb.go:50-99 | info is 1 and carries the version; battery, brightness and moisture are their raw values; conductivity and temperature are in physical units |
| Tsdb.EmptyResult | outputs/tsdb/tsdb.go:31-102 | a result with neither firmware nor measurement gives no metrics |

## Left out

- BLE transport, scanning and the per-sensor polling loop (`Start`, `Scan`, `Realtime`, `doScan`, `newSensor`, and the `GetCharByUUID`/`ReadValue` path of `Sensor.Firmware`/`Sensor.Measurement`/`Sensor.History`). These are I/O. The device is an abstract trace, and only the decoding these functions perform is modelled.
- Goroutines, channels and wait groups (`Realtime` workers, output `Run` loops), because their point is concurrency. A result channel is modelled as an identity only.
- Advertisements.TemperatureVector: states the exact value 27.4 °C. The test at miflora/advertisements/advertisements_test.go:46 compares with the float64 `274 * 0.1` of model.go:40, which is 27.400000000000002 in IEEE-754 double arithmetic, not the double nearest 27.4; the -2.5 and 0.0046 vectors have no such rounding gap.
- Floating point. Temperature and conductivity keep their raw integers; their values are exact rationals. `miflora.Measurement` stores raw tenths, not `float64(t) / 10`. `String`/`MarshalJSON` formatting is not modelled.
- Tsdb.ResultToMetrics: a measurement missing any of its four readings makes outputs/tsdb/tsdb.go:76-97 dereference a nil pointer and panic; the model excludes that case by the precondition `Complete` (also on `MeasurementMetrics`, `MetricOrder` and `MetricValues`) instead of modelling the panic. A measurement from a single advertisement has one reading only (`Tsdb.AdvertisedReadingsIncomplete`), so such a result would take that panic path.
- Wall clocks. `time.Now` readings are parameters in nanoseconds.
- Client.GattClient.DeviceTimeDiff: int64 saturation of Go's time arithmetic is not modelled; times are unbounded integers.
- The Prometheus and TSDB libraries. Metric names are string constants, and labels are a map (the library's sorting and its treatment of empty label values are not modelled). The TSDB head/appender and `Run` are not modelled.
- `main.go` (flags, pprof, logging), `Measurement.LogWith` and the JSON output are process wiring or logging.
- History synchronisation (`HistoricValues`) is not part of this model. Neither are the historic-record decoder (`HistoricMeasurement`) and the handle constants. The handles are a parameter, and `Client.GattClient.HistoryMeasurement` takes the decoder as a function parameter.
- SensorSet.InsertSorted: the implementation of `SensorSlice.insertSorted` does not appear in this version of the code (the sensor types at miflora/miflora.go:70-75 have no such slice type), so the operation is modelled from the contract of miflora/miflora_test.go:67-121. Sensors are reduced to address and name; the test's advertisement object is represented by its address string.
- Miflora.ToUpper: ASCII case mapping only; Unicode case folding is not modelled.
- Model.BytesToString: a version string is one character per byte; UTF-8 decoding is not modelled.
- Context.SensorsNamesFromContext: the difference between a nil and an empty `[]string` is not modelled; both are the empty sequence.
- Go's panic on a nil parent in `context.WithValue` is a precondition of the setters.
- Slices are assumed to have capacity equal to length, so the panics of `x.data[offset : offset+n]` are exactly the length checks modelled.
- Miflora.Measurement.UnmarshalBinary: the reader errors after the 16-byte check cannot occur, so that method has no such branches.
- Error texts are not modelled. The `miflora.go` wrong-length message says "!= 10" while the check is against 16; the model reports the length and 16.
