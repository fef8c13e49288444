/** Fixed-width integers and the little-endian codecs of Go's
    encoding/binary package, as the decoders use them. */
module Bytes {

  import opened Wrappers

  type uint8 = x: int | 0 <= x < 0x100
  type uint16 = x: int | 0 <= x < 0x1_0000
  type int16 = x: int | -0x8000 <= x < 0x8000
  type uint32 = x: int | 0 <= x < 0x1_0000_0000
  type int32 = x: int | -0x8000_0000 <= x < 0x8000_0000

  /** binary.LittleEndian.Uint16: b[0] is the low byte, b[1] the high byte. */
  function LeUint16(b: seq<uint8>): (v: uint16)
    requires |b| >= 2
    ensures v % 0x100 == b[0] && v / 0x100 == b[1]
  {
    b[0] as int + 0x100 * b[1] as int
  }

  /** binary.LittleEndian.PutUint16. */
  function PutUint16(v: uint16): (b: seq<uint8>)
    ensures |b| == 2 && b[0] as int + 0x100 * b[1] as int == v
  {
    [v % 0x100, v / 0x100]
  }

  lemma LeUint16PutUint16(v: uint16)
    ensures LeUint16(PutUint16(v)) == v
  {
  }

  lemma PutUint16LeUint16(b: seq<uint8>)
    requires |b| == 2
    ensures PutUint16(LeUint16(b)) == b
  {
  }

  /** binary.LittleEndian.Uint32. */
  function LeUint32(b: seq<uint8>): (v: uint32)
    requires |b| >= 4
    ensures v % 0x1_0000 == LeUint16(b) && v / 0x1_0000 == LeUint16(b[2..])
  {
    b[0] as int + 0x100 * b[1] as int + 0x1_0000 * b[2] as int + 0x100_0000 * b[3] as int
  }

  /** Go's conversion int16(u) of a uint16: the same 16 bits read as two's complement. */
  function Int16(u: uint16): (v: int16)
    ensures (v - u) % 0x1_0000 == 0
    ensures v < 0 <==> u >= 0x8000
  {
    if u < 0x8000 then u else u - 0x1_0000
  }

  /** Go's conversion uint16(v) of an int16: the inverse of Int16. */
  function Uint16Of(v: int16): (u: uint16)
    ensures Int16(u) == v
  {
    if v >= 0 then v else v + 0x1_0000
  }

  /** Go's conversion int32(u) of a uint32. */
  function Int32(u: uint32): (v: int32)
    ensures (v - u) % 0x1_0000_0000 == 0
    ensures v < 0 <==> u >= 0x8000_0000
  {
    if u < 0x8000_0000 then u else u - 0x1_0000_0000
  }

  /** A signed little-endian int16, as binary.Read decodes into an int16. */
  function LeInt16(b: seq<uint8>): (v: int16)
    requires |b| >= 2
    ensures Uint16Of(v) == LeUint16(b)
    ensures v < 0 <==> b[1] >= 0x80
  {
    Int16(LeUint16(b))
  }

  /** A signed little-endian int32, as binary.Read decodes into an int32. */
  function LeInt32(b: seq<uint8>): (v: int32)
    requires |b| >= 4
    ensures (v - LeUint32(b)) % 0x1_0000_0000 == 0
    ensures v < 0 <==> b[3] >= 0x80
  {
    Int32(LeUint32(b))
  }

  lemma {:induction false} LeInt16RoundTrip(v: int16)
    ensures LeInt16(PutUint16(Uint16Of(v))) == v
  {
    LeUint16PutUint16(Uint16Of(v));
  }

  /** The errors of bytes.Reader and io.ReadFull. */
  datatype ReadError = EOF | UnexpectedEOF

  /** A bytes.Reader: an immutable byte slice and a read cursor. */
  class ByteReader {
    const data: seq<uint8>
    var pos: nat

    ghost predicate Valid()
      reads this
    {
      pos <= |data|
    }

    /** The bytes not yet consumed. */
    function Remaining(): (r: seq<uint8>)
      reads this
      requires Valid()
      ensures |r| == |data| - pos
    {
      data[pos..]
    }

    /** bytes.NewReader. */
    constructor (data: seq<uint8>)
      ensures Valid() && this.data == data && pos == 0
    {
      this.data := data;
      pos := 0;
    }

    /** io.ReadFull(r, make([]byte, n)), which binary.Read uses for fixed-size
        values: all n bytes, or an error. A partial read consumes what was left. */
    method ReadFull(n: nat) returns (r: Result<seq<uint8>, ReadError>)
      requires Valid() && n > 0
      modifies this`pos
      ensures Valid()
      ensures n <= old(|Remaining()|) ==> r == Ok(old(Remaining())[..n]) && pos == old(pos) + n
      ensures n > old(|Remaining()|) ==> pos == |data|
      ensures n > old(|Remaining()|) ==>
        r == Err(if old(pos) == |data| then EOF else UnexpectedEOF)
    {
      if pos == |data| {
        return Err(EOF);
      }
      if n <= |data| - pos {
        assert data[pos..pos + n] == data[pos..][..n];
        r := Ok(data[pos..pos + n]);
        pos := pos + n;
      } else {
        pos := |data|;
        r := Err(UnexpectedEOF);
      }
    }

    /** bytes.Reader.Read with a buffer of n bytes: EOF at the end of the data,
        otherwise as many bytes as remain, up to n, and no error. */
    method Read(n: nat) returns (count: nat, err: Option<ReadError>)
      requires Valid()
      modifies this`pos
      ensures Valid()
      ensures old(pos) == |data| ==> err == Some(EOF) && count == 0 && pos == old(pos)
      ensures old(pos) < |data| ==>
        err == None && count == (if n <= old(|Remaining()|) then n else old(|Remaining()|))
      ensures pos == old(pos) + count
    {
      if pos == |data| {
        return 0, Some(EOF);
      }
      count := if n <= |data| - pos then n else |data| - pos;
      pos := pos + count;
      err := None;
    }
  }
}
