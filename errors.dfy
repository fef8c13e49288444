/** The error values the decoders and the client return. Go reports most of
    them as formatted error strings; the model keeps the facts those strings
    carry. Runtime panics of the source become the two panic kinds. */
module Errors {

  import opened Bytes

  /** The text that Go's error wrapping puts before a reader error. */
  datatype ReadStep = ReadingData | Skipping1 | Skipping2 | ReadingTimestamp | ReadingHistoryLength

  datatype Error =
    | FrameTooShort(length: nat)                  // a frame rejected by advertisements.New
    | TooShort(length: nat, minimum: nat)         // "data not long enough: %d < 3"
    | WrongLength(length: nat, expected: nat)     // "invalid data length"
    | ReadFailed(step: ReadStep, cause: ReadError) // a failed binary.Read or skip, wrapped
    | IndexOutOfRange(index: nat, length: nat)    // a Go runtime panic: index or slice bound
    | UnknownMeasurement(id: uint16)              // the panic of the default branch in Values
    | CharacteristicNotFound(handle: uint16)      // "couldn't find characteristic with ValueHandle"
    | Transport(reason: string)                   // an error returned by the radio client
}
