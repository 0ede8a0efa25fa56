/** The byte-level layer of the codec: the byte type, the errors the core
    raises, and the growable byte buffer with a read cursor that both the
    encoder and the decoder work on (compressor/binary_stream.py). */
module Bytes {

  /** One element of a Python bytearray. */
  newtype byte = x: int | 0 <= x < 256

  /** The exceptions the core raises. */
  datatype Error =
    | BinaryStreamError  // a read at or past the end of the buffer
    | ValueError         // a byte, length or count outside 0..255, or an unknown tag byte
    | TypeError          // a dictionary key that is not a string

  /** What an operation that returns a value gives back: the value or the raised error. */
  datatype Result<T> = Ok(value: T) | Err(error: Error)

  /** What an operation that returns nothing gives back. */
  datatype Outcome = Pass | Fail(error: Error)

  /** The result of a read starting at some cursor, with the cursor the read leaves
      behind. On an error the cursor is where the stream was left when the
      exception propagated. */
  datatype Parsed<T> = Parsed(result: Result<T>, next: nat) {
    /** The same read with `f` applied to the value it returns. */
    function Map<U>(f: T -> U): Parsed<U>
    {
      Parsed(if result.Ok? then Ok(f(result.value)) else Err(result.error), next)
    }
  }

  /** Appending is associative; stated once so that proofs regrouping appended
      bytes need not rediscover it. */
  lemma AppendAssociative<T>(a: seq<T>, b: seq<T>, c: seq<T>)
    ensures a + b + c == a + (b + c)
  {
  }

  /** Python's slice `buf[lo:hi]` for `lo <= hi`: bounds past the end are clipped,
      never rejected. */
  function Slice(buf: seq<byte>, lo: nat, hi: nat): seq<byte>
    requires lo <= hi
  {
    if |buf| <= lo then []
    else if |buf| <= hi then buf[lo..]
    else buf[lo..hi]
  }

  /** `read_byte` on a buffer whose cursor stands at `pos`. */
  function ReadByteAt(buf: seq<byte>, pos: nat): Parsed<byte>
  {
    if |buf| <= pos then Parsed(Err(BinaryStreamError), pos)
    else Parsed(Ok(buf[pos]), pos + 1)
  }

  /** `read_string` on a buffer whose cursor stands at `pos`: a length byte L, then
      the next L bytes as far as the buffer has them; the cursor moves by L whether
      or not they were there. */
  function ReadStringAt(buf: seq<byte>, pos: nat): Parsed<seq<byte>>
  {
    var length := ReadByteAt(buf, pos);
    match length.result
    case Err(e) => Parsed(Err(e), length.next)
    case Ok(n) => Parsed(Ok(Slice(buf, length.next, length.next + n as nat)), length.next + n as nat)
  }

  /** The bytes `write_string` appends for `s`: its length, then its bytes. */
  function LengthPrefixed(s: seq<byte>): (r: seq<byte>)
    requires |s| < 256
    ensures |r| == |s| + 1 && r[0] as int == |s| && r[1..] == s
  {
    [|s| as byte] + s
  }

  /** `read_string` inverts `write_string`: when the bytes at the cursor are a
      length-prefixed `s`, it returns exactly `s` and leaves the cursor just
      past them, whatever follows. */
  lemma {:induction false} ReadStringInvertsWrite(buf: seq<byte>, pos: nat, s: seq<byte>)
    requires |s| < 256
    requires pos + |s| + 1 <= |buf| && buf[pos..pos + |s| + 1] == LengthPrefixed(s)
    ensures ReadStringAt(buf, pos) == Parsed(Ok(s), pos + |s| + 1)
  {
    var field := buf[pos..pos + |s| + 1];
    assert buf[pos] == field[0] && buf[pos] as int == |s|;
    assert buf[pos + 1..pos + |s| + 1] == field[1..] == s;
    assert Slice(buf, pos + 1, pos + 1 + |s|) == s;
  }

  /** `read_string` does not check that the declared length is available: when
      fewer bytes remain, it returns the shorter tail of the buffer and moves the
      cursor past the end of the buffer, instead of failing. */
  lemma ReadStringPastEnd(buf: seq<byte>, pos: nat)
    requires pos < |buf| && |buf| < pos + 1 + buf[pos] as int
    ensures ReadStringAt(buf, pos).result == Ok(buf[pos + 1..])
    ensures |ReadStringAt(buf, pos).result.value| < buf[pos] as int
    ensures |buf| < ReadStringAt(buf, pos).next
  {
  }

  /** The stream: the bytes written or supplied so far, and the read cursor (which
      writes move too). The `_write_offset` field of the source is never read and
      is not modelled. */
  class BinaryStream {
    var buffer: seq<byte>
    var readOffset: nat

    /** A stream over `initial`, its cursor at the start; each stream owns its buffer. */
    constructor (initial: seq<byte>)
      ensures buffer == initial && readOffset == 0
    {
      buffer := initial;
      readOffset := 0;
    }

    /** Returns the byte under the cursor and advances the cursor by one; at or
        past the end it raises BinaryStreamError and changes nothing. */
    method ReadByte() returns (r: Result<byte>)
      modifies this`readOffset
      ensures old(readOffset) < |buffer| ==> r == Ok(buffer[old(readOffset)]) && readOffset == old(readOffset) + 1
      ensures |buffer| <= old(readOffset) ==> r == Err(BinaryStreamError) && readOffset == old(readOffset)
      ensures Parsed(r, readOffset) == ReadByteAt(buffer, old(readOffset))
    {
      if |buffer| <= readOffset {
        return Err(BinaryStreamError);
      }
      var b := buffer[readOffset];
      readOffset := readOffset + 1;
      return Ok(b);
    }

    /** Reads a length byte L and returns the following L bytes (clipped at the end
        of the buffer), advancing the cursor by 1 + L in all. */
    method ReadString() returns (r: Result<seq<byte>>)
      modifies this`readOffset
      ensures Parsed(r, readOffset) == ReadStringAt(buffer, old(readOffset))
      ensures r.Ok? ==> old(readOffset) < |buffer| && readOffset == old(readOffset) + 1 + buffer[old(readOffset)] as int
    {
      var length := ReadByte();
      if length.Err? {
        return Err(length.error);
      }
      var n := length.value as nat;
      var s := Slice(buffer, readOffset, readOffset + n);
      readOffset := readOffset + n;
      return Ok(s);
    }

    /** Appends `x` as one byte and, as the source does, also moves the read cursor
        on by one. A value above 255 raises ValueError, and so does a negative one
        (rejected by `bytearray.append`); the stream is then unchanged. */
    method WriteByte(x: int) returns (o: Outcome)
      modifies this`buffer, this`readOffset
      ensures 0 <= x < 256 ==> o == Pass && buffer == old(buffer) + [x as byte] && readOffset == old(readOffset) + 1
      ensures !(0 <= x < 256) ==> o == Fail(ValueError) && buffer == old(buffer) && readOffset == old(readOffset)
    {
      if x > 255 {
        return Fail(ValueError);
      }
      if x < 0 {
        return Fail(ValueError);
      }
      buffer := buffer + [x as byte];
      readOffset := readOffset + 1;
      return Pass;
    }

    /** Appends 1 for true and 0 for false. */
    method WriteBool(b: bool)
      modifies this`buffer, this`readOffset
      ensures buffer == old(buffer) + [if b then 1 else 0] && readOffset == old(readOffset) + 1
    {
      var o := WriteByte(if b then 1 else 0);
    }

    /** Appends the length of `s` as one byte, then `s`; only the length byte moves
        the read cursor. A string longer than 255 raises ValueError before anything
        is written. */
    method WriteString(s: seq<byte>) returns (o: Outcome)
      modifies this`buffer, this`readOffset
      ensures |s| < 256 ==> o == Pass && buffer == old(buffer) + LengthPrefixed(s) && readOffset == old(readOffset) + 1
      ensures 256 <= |s| ==> o == Fail(ValueError) && buffer == old(buffer) && readOffset == old(readOffset)
    {
      if |s| > 255 {
        return Fail(ValueError);
      }
      o := WriteByte(|s|);
      buffer := buffer + s;
    }

    /** A copy of everything in the buffer. */
    method GetBuffer() returns (r: seq<byte>)
      ensures r == buffer
    {
      r := buffer;
    }

    /** The position of the read cursor. */
    method GetCurrentReadOffset() returns (r: nat)
      ensures r == readOffset
    {
      r := readOffset;
    }
  }
}
