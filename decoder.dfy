/** The recursive decoder (compressor/decompressor.py): one forward pass over a
    fresh stream, reading a tag byte and then the payload it announces. The
    functions below say what each read returns and where it leaves the cursor;
    `JsonDecompressor` is the object that performs the reads. */
module Decoder {
  import opened Bytes
  import opened Tags
  import opened Values

  /** Bytes left to read from `pos` on; 0 once the cursor is at or past the end. */
  function Remaining(buf: seq<byte>, pos: nat): nat
  {
    if pos <= |buf| then |buf| - pos else 0
  }

  /** `_read_type`: a tag byte, converted to its member; a byte that is no member's
      value raises ValueError after the byte has been consumed. */
  function ReadTypeAt(buf: seq<byte>, pos: nat): Parsed<CompressType>
  {
    var tag := ReadByteAt(buf, pos);
    Parsed(if tag.result.Ok? then FromByte(tag.result.value) else Err(tag.result.error), tag.next)
  }

  /** `_decompress_integer`: the next byte, as an integer. */
  function DecodeInteger(buf: seq<byte>, pos: nat): Parsed<int>
  {
    ReadByteAt(buf, pos).Map(b => b as int)
  }

  /** `_decompress_boolean`: whether the next byte is nonzero. */
  function DecodeBoolean(buf: seq<byte>, pos: nat): Parsed<bool>
  {
    ReadByteAt(buf, pos).Map(b => b != 0)
  }

  /** `_decompress_string`: the next length-prefixed string. */
  function DecodeString(buf: seq<byte>, pos: nat): Parsed<seq<byte>>
  {
    ReadStringAt(buf, pos)
  }

  /** `_decompress_data`: dispatch on the tag. */
  function DecodeValue(buf: seq<byte>, pos: nat): (r: Parsed<Value>)
    decreases Remaining(buf, pos), 0
    ensures pos <= r.next
    ensures r.result.Ok? ==> pos < |buf| && pos + 2 <= r.next
    ensures |buf| <= pos ==> r == Parsed(Err(BinaryStreamError), pos)
  {
    var tag := ReadTypeAt(buf, pos);
    if tag.result.Err? then Parsed(Err(tag.result.error), tag.next)
    else
      match tag.result.value
      case INTEGER => DecodeInteger(buf, tag.next).Map(n => Int(n))
      case STRING => DecodeString(buf, tag.next).Map(s => Str(s))
      case BOOLEAN => DecodeBoolean(buf, tag.next).Map(b => Bool(b))
      case LIST => DecodeList(buf, tag.next).Map(items => List(items))
      case OBJECT => DecodeObject(buf, tag.next).Map(entries => Obj(entries))
  }

  /** `_decompress_list`: a count byte c, then c values in order; c = 0 returns the
      empty list at once. */
  function DecodeList(buf: seq<byte>, pos: nat): (r: Parsed<seq<Value>>)
    decreases Remaining(buf, pos), 2
    ensures pos <= r.next
    ensures r.result.Ok? ==> pos < |buf| && pos + 1 <= r.next && |r.result.value| == buf[pos] as int
  {
    var size := ReadByteAt(buf, pos);
    if size.result.Err? then Parsed(Err(size.result.error), size.next)
    else if size.result.value == 0 then Parsed(Ok([]), size.next)
    else DecodeItems(buf, size.next, size.result.value as nat, [])
  }

  /** The list loop with `n` passes to go, having built `acc` so far. */
  function DecodeItems(buf: seq<byte>, pos: nat, n: nat, acc: seq<Value>): (r: Parsed<seq<Value>>)
    decreases Remaining(buf, pos), 1
    ensures pos <= r.next
    ensures r.result.Ok? ==> |r.result.value| == |acc| + n
  {
    if n == 0 then Parsed(Ok(acc), pos)
    else
      var item := DecodeValue(buf, pos);
      if item.result.Err? then Parsed(Err(item.result.error), item.next)
      else DecodeItems(buf, item.next, n - 1, acc + [item.result.value])
  }

  /** `_decompress_object`: a count byte c, then c (key, value) pairs stored into a
      fresh dict. */
  function DecodeObject(buf: seq<byte>, pos: nat): (r: Parsed<seq<(Value, Value)>>)
    decreases Remaining(buf, pos), 2
    ensures pos <= r.next
    ensures r.result.Ok? ==> pos < |buf| && pos + 1 <= r.next
    ensures r.result.Ok? ==> DistinctKeys(r.result.value) && |r.result.value| <= buf[pos] as int
  {
    var size := ReadByteAt(buf, pos);
    if size.result.Err? then Parsed(Err(size.result.error), size.next)
    else
      EntriesDistinct(buf, size.next, size.result.value as nat, []);
      DecodeEntries(buf, size.next, size.result.value as nat, [])
  }

  /** The dict loop with `n` passes to go, having built `acc` so far: a key string,
      then a value, then `acc[key] = value`. */
  function DecodeEntries(buf: seq<byte>, pos: nat, n: nat, acc: seq<(Value, Value)>): (r: Parsed<seq<(Value, Value)>>)
    decreases Remaining(buf, pos), 1
    ensures pos <= r.next
  {
    if n == 0 then Parsed(Ok(acc), pos)
    else
      var key := ReadStringAt(buf, pos);
      if key.result.Err? then Parsed(Err(key.result.error), key.next)
      else
        var value := DecodeValue(buf, key.next);
        if value.result.Err? then Parsed(Err(value.result.error), value.next)
        else DecodeEntries(buf, value.next, n - 1, Insert(acc, Str(key.result.value), value.result.value))
  }

  /** The first read of a pass of the dict loop: an error reading the key ends the
      loop with that error. */
  lemma EntriesKeyStep(buf: seq<byte>, pos: nat, n: nat, acc: seq<(Value, Value)>)
    requires 0 < n
    ensures ReadStringAt(buf, pos).result.Err? ==>
      DecodeEntries(buf, pos, n, acc) == Parsed(Err(ReadStringAt(buf, pos).result.error), ReadStringAt(buf, pos).next)
  {
  }

  /** The rest of a pass of the dict loop once the key is read: an error reading
      the value ends the loop with that error; otherwise the value is assigned to
      the key and the loop goes on. */
  lemma EntriesValueStep(buf: seq<byte>, pos: nat, n: nat, rest: nat, acc: seq<(Value, Value)>, key: seq<byte>, mid: nat)
    requires n == rest + 1 && ReadStringAt(buf, pos) == Parsed(Ok(key), mid)
    ensures var value := DecodeValue(buf, mid);
      DecodeEntries(buf, pos, n, acc) ==
        if value.result.Err? then Parsed(Err(value.result.error), value.next)
        else DecodeEntries(buf, value.next, rest, Insert(acc, Str(key), value.result.value))
  {
  }

  /** The dict loop adds at most one item per pass, and keys that were distinct
      stay distinct: what it builds is a Python dict. */
  lemma {:induction false} EntriesDistinct(buf: seq<byte>, pos: nat, n: nat, acc: seq<(Value, Value)>)
    ensures var r := DecodeEntries(buf, pos, n, acc);
      r.result.Ok? ==> |r.result.value| <= |acc| + n && (DistinctKeys(acc) ==> DistinctKeys(r.result.value))
    decreases Remaining(buf, pos), 3
  {
    if n > 0 {
      var key := ReadStringAt(buf, pos);
      if key.result.Ok? {
        var value := DecodeValue(buf, key.next);
        if value.result.Ok? {
          var k, x := Str(key.result.value), value.result.value;
          InsertDistinct(acc, k, x);
          EntriesDistinct(buf, value.next, n - 1, Insert(acc, k, x));
        }
      }
    }
  }

  /** `decompress`: one value from the start of the bytes; whatever follows it is
      not read. */
  function Decompress(data: seq<byte>): Result<Value>
  {
    DecodeValue(data, 0).result
  }

  /** A tag byte that is no member's value raises ValueError, with the byte consumed. */
  lemma UnknownTag(buf: seq<byte>, pos: nat)
    requires pos < |buf| && !(1 <= buf[pos] <= 5)
    ensures DecodeValue(buf, pos) == Parsed(Err(ValueError), pos + 1)
  {
  }

  /** The INTEGER tag returns the next byte as an integer and the BOOLEAN tag
      whether it is nonzero. */
  lemma ScalarTags(buf: seq<byte>, pos: nat)
    requires pos + 2 <= |buf|
    ensures buf[pos] == 1 ==> DecodeValue(buf, pos) == Parsed(Ok(Int(buf[pos + 1] as int)), pos + 2)
    ensures buf[pos] == 3 ==> DecodeValue(buf, pos) == Parsed(Ok(Bool(buf[pos + 1] != 0)), pos + 2)
  {
  }

  /** A tag whose payload starts with a byte (an integer, a boolean, a string's
      length, a count) raises BinaryStreamError when the buffer ends right after it. */
  lemma MissingPayload(buf: seq<byte>, pos: nat)
    requires pos + 1 == |buf| && 1 <= buf[pos] <= 5
    ensures DecodeValue(buf, pos) == Parsed(Err(BinaryStreamError), pos + 1)
  {
  }

  /** A count of zero gives the empty list or the empty dict after two bytes. */
  lemma EmptyContainerTags(buf: seq<byte>, pos: nat)
    requires pos + 2 <= |buf| && buf[pos + 1] == 0
    ensures buf[pos] == 4 ==> DecodeValue(buf, pos) == Parsed(Ok(List([])), pos + 2)
    ensures buf[pos] == 5 ==> DecodeValue(buf, pos) == Parsed(Ok(Obj([])), pos + 2)
  {
    assert DecodeObject(buf, pos + 1) == DecodeEntries(buf, pos + 2, 0, []);
  }

  /** A dict whose bytes repeat a key keeps the key once, at its first position,
      with the later value: `{"a": 1, "a": 2}` reads back as `{"a": 2}`. The bytes
      come in as a parameter pinned by `requires`, which keeps the literal out of
      the queries that do not need it. */
  lemma DuplicateKeyOverwrites(buf: seq<byte>)
    requires buf == [5, 2] + ([1, 97] + [1, 1]) + ([1, 97] + [1, 2])
    ensures Decompress(buf) == Ok(Obj([(Str([97]), Int(2))]))
  {
    assert buf[2] == 1 && buf[3..4] == [97] && buf[6] == 1 && buf[7..8] == [97];
    assert ReadStringAt(buf, 2) == Parsed(Ok([97]), 4);
    assert ReadStringAt(buf, 6) == Parsed(Ok([97]), 8);
    assert DecodeValue(buf, 4) == Parsed(Ok(Int(1)), 6);
    assert DecodeValue(buf, 8) == Parsed(Ok(Int(2)), 10);
    assert Insert([], Str([97]), Int(1)) == [(Str([97]), Int(1))];
    assert Insert([(Str([97]), Int(1))], Str([97]), Int(2)) == [(Str([97]), Int(2))];
    assert DecodeEntries(buf, 6, 1, [(Str([97]), Int(1))]) == Parsed(Ok([(Str([97]), Int(2))]), 10);
    assert DecodeEntries(buf, 2, 2, []) == Parsed(Ok([(Str([97]), Int(2))]), 10);
    assert DecodeObject(buf, 1) == Parsed(Ok([(Str([97]), Int(2))]), 10);
  }

  /** The decoder object: the bytes it was given and the fresh stream over them. */
  class JsonDecompressor {
    const json: seq<byte>
    const stream: BinaryStream

    constructor (data: seq<byte>)
      ensures json == data && fresh(stream) && stream.buffer == data && stream.readOffset == 0
    {
      json := data;
      stream := new BinaryStream(data);
    }

    method ReadType() returns (r: Result<CompressType>)
      modifies stream`readOffset
      ensures Parsed(r, stream.readOffset) == ReadTypeAt(stream.buffer, old(stream.readOffset))
    {
      var b := stream.ReadByte();
      if b.Err? {
        return Err(b.error);
      }
      r := FromByte(b.value);
    }

    /** Decodes one value from the cursor on. */
    method Decompress() returns (r: Result<Value>)
      modifies stream`readOffset
      ensures Parsed(r, stream.readOffset) == DecodeValue(stream.buffer, old(stream.readOffset))
    {
      r := DecompressData();
    }

    method DecompressString() returns (r: Result<seq<byte>>)
      modifies stream`readOffset
      ensures Parsed(r, stream.readOffset) == DecodeString(stream.buffer, old(stream.readOffset))
    {
      r := stream.ReadString();
    }

    method DecompressInteger() returns (r: Result<int>)
      modifies stream`readOffset
      ensures Parsed(r, stream.readOffset) == DecodeInteger(stream.buffer, old(stream.readOffset))
    {
      var b := stream.ReadByte();
      if b.Err? {
        return Err(b.error);
      }
      r := Ok(b.value as int);
    }

    method DecompressBoolean() returns (r: Result<bool>)
      modifies stream`readOffset
      ensures Parsed(r, stream.readOffset) == DecodeBoolean(stream.buffer, old(stream.readOffset))
    {
      var b := stream.ReadByte();
      if b.Err? {
        return Err(b.error);
      }
      r := Ok(b.value != 0);
    }

    method DecompressObject() returns (r: Result<seq<(Value, Value)>>)
      modifies stream`readOffset
      decreases Remaining(stream.buffer, stream.readOffset), 2
      ensures Parsed(r, stream.readOffset) == DecodeObject(stream.buffer, old(stream.readOffset))
    {
      ghost var buf, goal := stream.buffer, DecodeObject(stream.buffer, stream.readOffset);
      var size := stream.ReadByte();
      if size.Err? {
        return Err(size.error);
      }
      var n := size.value as nat;
      var dict: seq<(Value, Value)> := [];
      for i := 0 to n
        invariant stream.buffer == buf && old(stream.readOffset) < stream.readOffset
        invariant DecodeEntries(buf, stream.readOffset, n - i, dict) == goal
      {
        ghost var pos := stream.readOffset;
        var key := stream.ReadString();
        EntriesKeyStep(buf, pos, n - i, dict);
        if key.Err? {
          return Err(key.error);
        }
        ghost var mid := stream.readOffset;
        var value := DecompressData();
        EntriesValueStep(buf, pos, n - i, n - (i + 1), dict, key.value, mid);
        if value.Err? {
          return Err(value.error);
        }
        assert DecodeEntries(buf, stream.readOffset, n - (i + 1), Insert(dict, Str(key.value), value.value)) == goal;
        dict := Insert(dict, Str(key.value), value.value);
      }
      return Ok(dict);
    }

    method DecompressList() returns (r: Result<seq<Value>>)
      modifies stream`readOffset
      decreases Remaining(stream.buffer, stream.readOffset), 2
      ensures Parsed(r, stream.readOffset) == DecodeList(stream.buffer, old(stream.readOffset))
    {
      ghost var buf, goal := stream.buffer, DecodeList(stream.buffer, stream.readOffset);
      var size := stream.ReadByte();
      if size.Err? {
        return Err(size.error);
      }
      if size.value == 0 {
        return Ok([]);
      }
      var n := size.value as nat;
      var list: seq<Value> := [];
      for i := 0 to n
        invariant stream.buffer == buf && old(stream.readOffset) < stream.readOffset
        invariant DecodeItems(buf, stream.readOffset, n - i, list) == goal
      {
        var item := DecompressData();
        if item.Err? {
          return Err(item.error);
        }
        list := list + [item.value];
      }
      return Ok(list);
    }

    /** Reads a tag and dispatches on it; every error of the stream propagates. */
    method DecompressData() returns (r: Result<Value>)
      modifies stream`readOffset
      decreases Remaining(stream.buffer, stream.readOffset), 0
      ensures Parsed(r, stream.readOffset) == DecodeValue(stream.buffer, old(stream.readOffset))
    {
      var dtype := ReadType();
      if dtype.Err? {
        return Err(dtype.error);
      }
      match dtype.value
      case INTEGER =>
        var n := DecompressInteger();
        r := if n.Ok? then Ok(Int(n.value)) else Err(n.error);
      case STRING =>
        var s := DecompressString();
        r := if s.Ok? then Ok(Str(s.value)) else Err(s.error);
      case BOOLEAN =>
        var b := DecompressBoolean();
        r := if b.Ok? then Ok(Bool(b.value)) else Err(b.error);
      case LIST =>
        var items := DecompressList();
        r := if items.Ok? then Ok(List(items.value)) else Err(items.error);
      case OBJECT =>
        var entries := DecompressObject();
        r := if entries.Ok? then Ok(Obj(entries.value)) else Err(entries.error);
    }
  }
}
