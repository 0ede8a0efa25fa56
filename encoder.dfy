/** The recursive encoder (compressor/compressor.py): a tag byte, then the
    payload, for every value of the tree. `Encode` is the specification of the
    bytes it appends; `JsonCompressor` is the object that appends them. */
module Encoder {
  import opened Bytes
  import opened Tags
  import opened Values

  /** The bytes an encoding step appends and how it ends. There is no rollback:
      the bytes appended before an error stay in the buffer. */
  datatype Encoded = Encoded(bytes: seq<byte>, outcome: Outcome)

  /** Nothing written, no error. */
  const Empty := Encoded([], Pass)

  /** `first`, then `second` only when `first` passed, as two statements in a
      row where an exception in the first skips the second. */
  function Then(first: Encoded, second: Encoded): (r: Encoded)
    ensures first.outcome.Fail? ==> r == first
    ensures first.outcome.Pass? ==> r.bytes == first.bytes + second.bytes && r.outcome == second.outcome
  {
    if first.outcome.Fail? then first else Encoded(first.bytes + second.bytes, second.outcome)
  }

  /** `write_byte(x)`. */
  function ByteField(x: int): Encoded
  {
    if 0 <= x < 256 then Encoded([x as byte], Pass) else Encoded([], Fail(ValueError))
  }

  /** `write_string(s)`. */
  function StringField(s: seq<byte>): Encoded
  {
    if |s| < 256 then Encoded(LengthPrefixed(s), Pass) else Encoded([], Fail(ValueError))
  }

  /** `_push_type(t)`. */
  function TagField(t: CompressType): Encoded
  {
    Encoded([TagByte(t)], Pass)
  }

  /** `_compress_int`. */
  function EncodeInt(n: int): Encoded
  {
    Then(TagField(INTEGER), ByteField(n))
  }

  /** `_compress_string`. */
  function EncodeString(s: seq<byte>): Encoded
  {
    Then(TagField(STRING), StringField(s))
  }

  /** `_compress_list`: tag, count, then each element. */
  function EncodeList(items: seq<Value>): Encoded
    decreases items, 1
  {
    Then(TagField(LIST), Then(ByteField(|items|), EncodeItems(items)))
  }

  /** `_compress_object`: tag, count, then each (key, value) item. */
  function EncodeObject(entries: seq<(Value, Value)>): Encoded
    decreases entries, 1
  {
    Then(TagField(OBJECT), Then(ByteField(|entries|), EncodeEntries(entries)))
  }

  /** `_compress_data`. A bool is an int in Python, so it takes the int branch and
      is written with the INTEGER tag as 1 or 0; the BOOLEAN tag is never written. */
  function Encode(v: Value): (e: Encoded)
    decreases v, 0
    ensures |e.bytes| >= 1 && e.bytes[0] == TagByte(KindOf(v))
  {
    match v
    case Obj(entries) => EncodeObject(entries)
    case Str(s) => EncodeString(s)
    case Int(n) => EncodeInt(n)
    case Bool(b) => EncodeInt(if b then 1 else 0)
    case List(items) => EncodeList(items)
  }

  /** The tag the encoder writes first for `v`. */
  function KindOf(v: Value): CompressType
  {
    match v
    case Int(_) => INTEGER
    case Bool(_) => INTEGER
    case Str(_) => STRING
    case List(_) => LIST
    case Obj(_) => OBJECT
  }

  /** The body of the list loop: each element in order, stopping at the first error. */
  function EncodeItems(items: seq<Value>): Encoded
    decreases items, 0
  {
    if items == [] then Empty else Then(Encode(items[0]), EncodeItems(items[1..]))
  }

  /** One pass of the dict loop: a key that is not a string raises TypeError;
      otherwise the key as a length-prefixed string, then the value. */
  function EncodeEntry(e: (Value, Value)): Encoded
    decreases e
  {
    if !e.0.Str? then Encoded([], Fail(TypeError))
    else Then(StringField(e.0.s), Encode(e.1))
  }

  /** The dict loop over `items()`, stopping at the first error. */
  function EncodeEntries(entries: seq<(Value, Value)>): Encoded
    decreases entries, 0
  {
    if entries == [] then Empty else Then(EncodeEntry(entries[0]), EncodeEntries(entries[1..]))
  }

  /** What the encoder accepts: integers and counts in 0..255, strings and keys of
      at most 255 bytes, and only string keys. */
  predicate Encodable(v: Value)
    decreases v
  {
    match v
    case Int(n) => 0 <= n < 256
    case Str(s) => |s| < 256
    case Bool(_) => true
    case List(items) => |items| < 256 && forall i :: 0 <= i < |items| ==> Encodable(items[i])
    case Obj(entries) =>
      |entries| < 256 &&
      forall i :: 0 <= i < |entries| ==> EncodableKey(entries[i].0) && Encodable(entries[i].1)
  }

  predicate EncodableKey(k: Value)
  {
    k.Str? && |k.s| < 256
  }

  /** `Then` is associative, so a run of writes can be grouped either way. */
  lemma ThenAssociative(a: Encoded, b: Encoded, c: Encoded)
    ensures Then(Then(a, b), c) == Then(a, Then(b, c))
  {
    AppendAssociative(a.bytes, b.bytes, c.bytes);
  }

  /** Encoding the elements of `p + q` is encoding those of `p`, then those of `q`. */
  lemma {:induction false} ItemsAppend(p: seq<Value>, q: seq<Value>)
    ensures EncodeItems(p + q) == Then(EncodeItems(p), EncodeItems(q))
  {
    if p == [] {
      assert p + q == q;
    } else {
      assert (p + q)[0] == p[0] && (p + q)[1..] == p[1..] + q;
      ItemsAppend(p[1..], q);
      ThenAssociative(Encode(p[0]), EncodeItems(p[1..]), EncodeItems(q));
    }
  }

  /** Encoding the items of `p + q` is encoding those of `p`, then those of `q`. */
  lemma {:induction false} EntriesAppend(p: seq<(Value, Value)>, q: seq<(Value, Value)>)
    ensures EncodeEntries(p + q) == Then(EncodeEntries(p), EncodeEntries(q))
  {
    if p == [] {
      assert p + q == q;
    } else {
      assert (p + q)[0] == p[0] && (p + q)[1..] == p[1..] + q;
      EntriesAppend(p[1..], q);
      ThenAssociative(EncodeEntry(p[0]), EncodeEntries(p[1..]), EncodeEntries(q));
    }
  }

  /** After the first `i` elements passed, the first `i + 1` give the bytes of the
      first `i` followed by those of element `i`, and end as element `i` ends. */
  lemma ItemsStep(items: seq<Value>, i: nat)
    requires i < |items| && EncodeItems(items[..i]).outcome == Pass
    ensures EncodeItems(items[..i + 1]).bytes == EncodeItems(items[..i]).bytes + Encode(items[i]).bytes
    ensures EncodeItems(items[..i + 1]).outcome == Encode(items[i]).outcome
  {
    assert items[..i + 1] == items[..i] + [items[i]];
    ItemsAppend(items[..i], [items[i]]);
  }

  /** Once a prefix of the elements failed, the elements after it are not written. */
  lemma ItemsStopAtFailure(items: seq<Value>, i: nat)
    requires i <= |items| && EncodeItems(items[..i]).outcome.Fail?
    ensures EncodeItems(items) == EncodeItems(items[..i])
  {
    assert items == items[..i] + items[i..];
    ItemsAppend(items[..i], items[i..]);
  }

  lemma EntriesStep(entries: seq<(Value, Value)>, i: nat)
    requires i < |entries| && EncodeEntries(entries[..i]).outcome == Pass
    ensures EncodeEntries(entries[..i + 1]).bytes == EncodeEntries(entries[..i]).bytes + EncodeEntry(entries[i]).bytes
    ensures EncodeEntries(entries[..i + 1]).outcome == EncodeEntry(entries[i]).outcome
  {
    assert entries[..i + 1] == entries[..i] + [entries[i]];
    EntriesAppend(entries[..i], [entries[i]]);
  }

  lemma EntriesStopAtFailure(entries: seq<(Value, Value)>, i: nat)
    requires i <= |entries| && EncodeEntries(entries[..i]).outcome.Fail?
    ensures EncodeEntries(entries) == EncodeEntries(entries[..i])
  {
    assert entries == entries[..i] + entries[i..];
    EntriesAppend(entries[..i], entries[i..]);
  }

  /** A list that fits the count byte is its tag, its count, then its elements. */
  lemma ListLayout(items: seq<Value>)
    requires |items| < 256
    ensures EncodeList(items).bytes == [TagByte(LIST)] + ([|items| as byte] + EncodeItems(items).bytes)
    ensures EncodeList(items).outcome == EncodeItems(items).outcome
  {
  }

  /** One dict item: the key's type is checked first, then its length, then the
      value is encoded. */
  lemma EntryLayout(e: (Value, Value))
    ensures !e.0.Str? ==> EncodeEntry(e) == Encoded([], Fail(TypeError))
    ensures e.0.Str? && 256 <= |e.0.s| ==> EncodeEntry(e) == Encoded([], Fail(ValueError))
    ensures EncodableKey(e.0) ==>
      EncodeEntry(e).bytes == LengthPrefixed(e.0.s) + Encode(e.1).bytes &&
      EncodeEntry(e).outcome == Encode(e.1).outcome
  {
  }

  /** A dict that fits the count byte is its tag, its count, then its items. */
  lemma ObjectLayout(entries: seq<(Value, Value)>)
    requires |entries| < 256
    ensures EncodeObject(entries).bytes == [TagByte(OBJECT)] + ([|entries| as byte] + EncodeEntries(entries).bytes)
    ensures EncodeObject(entries).outcome == EncodeEntries(entries).outcome
  {
  }

  /** An integer in 0..255 is the INTEGER tag and its byte; any other integer
      raises ValueError after the tag has been written. */
  lemma IntEncoding(n: int)
    ensures 0 <= n < 256 ==> Encode(Int(n)) == Encoded([1, n as byte], Pass)
    ensures !(0 <= n < 256) ==> Encode(Int(n)) == Encoded([1], Fail(ValueError))
  {
  }

  /** A boolean goes out as the integer 1 or 0, under the INTEGER tag. */
  lemma BoolEncoding(b: bool)
    ensures Encode(Bool(b)) == Encoded([1, if b then 1 else 0], Pass)
    ensures Encode(Bool(b)) == Encode(Int(if b then 1 else 0))
  {
  }

  /** A string of at most 255 bytes is the STRING tag, its length and its bytes; a
      longer one raises ValueError after the tag has been written. */
  lemma StringEncoding(s: seq<byte>)
    ensures |s| < 256 ==> Encode(Str(s)) == Encoded([2, |s| as byte] + s, Pass)
    ensures 256 <= |s| ==> Encode(Str(s)) == Encoded([2], Fail(ValueError))
  {
    if |s| < 256 {
      assert [2 as byte] + LengthPrefixed(s) == [2, |s| as byte] + s;
    }
  }

  /** A list or dict with more than 255 members raises ValueError once its tag has
      been written, before any member is. */
  lemma OversizedContainer(v: Value)
    requires v.List? || v.Obj?
    requires v.List? ==> 256 <= |v.items|
    requires v.Obj? ==> 256 <= |v.entries|
    ensures Encode(v) == Encoded([TagByte(KindOf(v))], Fail(ValueError))
  {
  }

  /** The empty list and the empty dict are their tag and a zero count. */
  lemma EmptyContainers()
    ensures Encode(List([])) == Encoded([4, 0], Pass)
    ensures Encode(Obj([])) == Encoded([5, 0], Pass)
  {
  }

  /** A dict whose `i`-th key is not a string raises TypeError, leaving behind the
      tag, the count and the items before it. */
  lemma NonStringKey(entries: seq<(Value, Value)>, i: nat)
    requires |entries| < 256 && i < |entries| && !entries[i].0.Str?
    requires EncodeEntries(entries[..i]).outcome == Pass
    ensures Encode(Obj(entries)) ==
      Encoded([5, |entries| as byte] + EncodeEntries(entries[..i]).bytes, Fail(TypeError))
  {
    assert entries == entries[..i] + entries[i..];
    EntriesAppend(entries[..i], entries[i..]);
    assert EncodeEntries(entries[i..]) == Encoded([], Fail(TypeError));
    ObjectLayout(entries);
    AppendAssociative([5 as byte], [|entries| as byte], EncodeEntries(entries[..i]).bytes);
  }

  /** One more pass of the list loop: the buffer grows by element `i`'s bytes. */
  lemma ItemsGrow(items: seq<Value>, i: nat, start: seq<byte>, before: seq<byte>, after: seq<byte>, o: Outcome)
    requires i < |items| && EncodeItems(items[..i]).outcome == Pass
    requires before == start + EncodeItems(items[..i]).bytes
    requires after == before + Encode(items[i]).bytes && o == Encode(items[i]).outcome
    ensures after == start + EncodeItems(items[..i + 1]).bytes && EncodeItems(items[..i + 1]).outcome == o
  {
    ItemsStep(items, i);
    AppendAssociative(start, EncodeItems(items[..i]).bytes, Encode(items[i]).bytes);
  }

  /** When element `i` fails, the loop's bytes so far are all the loop writes. */
  lemma ItemsStop(items: seq<Value>, i: nat, start: seq<byte>, after: seq<byte>)
    requires i < |items|
    requires after == start + EncodeItems(items[..i + 1]).bytes && EncodeItems(items[..i + 1]).outcome.Fail?
    ensures after == start + EncodeItems(items).bytes && EncodeItems(items).outcome == EncodeItems(items[..i + 1]).outcome
  {
    ItemsStopAtFailure(items, i + 1);
  }

  /** One more pass of the dict loop: the buffer grows by item `i`'s bytes. */
  lemma EntriesGrow(entries: seq<(Value, Value)>, i: nat, start: seq<byte>, before: seq<byte>, after: seq<byte>, o: Outcome)
    requires i < |entries| && EncodeEntries(entries[..i]).outcome == Pass
    requires before == start + EncodeEntries(entries[..i]).bytes
    requires after == before + EncodeEntry(entries[i]).bytes && o == EncodeEntry(entries[i]).outcome
    ensures after == start + EncodeEntries(entries[..i + 1]).bytes && EncodeEntries(entries[..i + 1]).outcome == o
  {
    EntriesStep(entries, i);
    AppendAssociative(start, EncodeEntries(entries[..i]).bytes, EncodeEntry(entries[i]).bytes);
  }

  /** When item `i` fails, the loop's bytes so far are all the loop writes. */
  lemma EntriesStop(entries: seq<(Value, Value)>, i: nat, start: seq<byte>, after: seq<byte>)
    requires i < |entries|
    requires after == start + EncodeEntries(entries[..i + 1]).bytes && EncodeEntries(entries[..i + 1]).outcome.Fail?
    ensures after == start + EncodeEntries(entries).bytes && EncodeEntries(entries).outcome == EncodeEntries(entries[..i + 1]).outcome
  {
    EntriesStopAtFailure(entries, i + 1);
  }

  /** The encoder object: the value tree it was given and the stream it owns. */
  class JsonCompressor {
    const json: Value
    const stream: BinaryStream

    /** The tree is taken as already built; the stream starts empty. */
    constructor (json: Value)
      ensures this.json == json && fresh(stream) && stream.buffer == [] && stream.readOffset == 0
    {
      this.json := json;
      stream := new BinaryStream([]);
    }

    /** Encodes the whole tree into the stream. */
    method Compress() returns (o: Outcome)
      modifies stream`buffer, stream`readOffset
      ensures stream.buffer == old(stream.buffer) + Encode(json).bytes && o == Encode(json).outcome
    {
      o := CompressData(json);
    }

    /** Writes the tag's byte; the source's guard against a value of 0 or below can
        never fire, since every tag is in 1..5. */
    method PushType(t: CompressType)
      modifies stream`buffer, stream`readOffset
      ensures stream.buffer == old(stream.buffer) + TagField(t).bytes
    {
      var o := stream.WriteByte(TagByte(t) as int);
    }

    method CompressObject(entries: seq<(Value, Value)>) returns (o: Outcome)
      modifies stream`buffer, stream`readOffset
      decreases EntriesSize(entries), 3
      ensures stream.buffer == old(stream.buffer) + EncodeObject(entries).bytes && o == EncodeObject(entries).outcome
    {
      PushType(OBJECT);
      o := stream.WriteByte(|entries|);
      if o.Fail? {
        return;
      }
      ObjectLayout(entries);
      ghost var start := stream.buffer;
      AppendAssociative(old(stream.buffer), [TagByte(OBJECT)], [|entries| as byte] + EncodeEntries(entries).bytes);
      AppendAssociative(old(stream.buffer) + [TagByte(OBJECT)], [|entries| as byte], EncodeEntries(entries).bytes);
      for i := 0 to |entries|
        invariant stream.buffer == start + EncodeEntries(entries[..i]).bytes
        invariant EncodeEntries(entries[..i]).outcome == Pass && o == Pass
      {
        ghost var before := stream.buffer;
        EntrySizeBound(entries, i);
        o := CompressEntry(entries[i]);
        EntriesGrow(entries, i, start, before, stream.buffer, o);
        if o.Fail? {
          EntriesStop(entries, i, start, stream.buffer);
          return;
        }
      }
      assert entries[..|entries|] == entries;
    }

    /** One pass of the dict loop: the key's type is checked, then the key is
        written as a string and the value is compressed. */
    method CompressEntry(e: (Value, Value)) returns (o: Outcome)
      modifies stream`buffer, stream`readOffset
      decreases Size(e.1), 2
      ensures stream.buffer == old(stream.buffer) + EncodeEntry(e).bytes && o == EncodeEntry(e).outcome
    {
      EntryLayout(e);
      if !e.0.Str? {
        return Fail(TypeError);
      }
      o := stream.WriteString(e.0.s);
      if o.Pass? {
        o := CompressData(e.1);
      }
    }

    method CompressString(s: seq<byte>) returns (o: Outcome)
      modifies stream`buffer, stream`readOffset
      ensures stream.buffer == old(stream.buffer) + EncodeString(s).bytes && o == EncodeString(s).outcome
    {
      PushType(STRING);
      o := stream.WriteString(s);
    }

    method CompressInt(n: int) returns (o: Outcome)
      modifies stream`buffer, stream`readOffset
      ensures stream.buffer == old(stream.buffer) + EncodeInt(n).bytes && o == EncodeInt(n).outcome
    {
      PushType(INTEGER);
      o := stream.WriteByte(n);
    }

    method CompressList(items: seq<Value>) returns (o: Outcome)
      modifies stream`buffer, stream`readOffset
      decreases ItemsSize(items), 2
      ensures stream.buffer == old(stream.buffer) + EncodeList(items).bytes && o == EncodeList(items).outcome
    {
      PushType(LIST);
      o := stream.WriteByte(|items|);
      if o.Fail? {
        return;
      }
      ListLayout(items);
      ghost var start := stream.buffer;
      AppendAssociative(old(stream.buffer), [TagByte(LIST)], [|items| as byte] + EncodeItems(items).bytes);
      AppendAssociative(old(stream.buffer) + [TagByte(LIST)], [|items| as byte], EncodeItems(items).bytes);
      for i := 0 to |items|
        invariant stream.buffer == start + EncodeItems(items[..i]).bytes
        invariant EncodeItems(items[..i]).outcome == Pass && o == Pass
      {
        ghost var before := stream.buffer;
        ItemSizeBound(items, i);
        o := CompressData(items[i]);
        ItemsGrow(items, i, start, before, stream.buffer, o);
        if o.Fail? {
          ItemsStop(items, i, start, stream.buffer);
          return;
        }
      }
      assert items[..|items|] == items;
    }

    /** Dispatches on the kind of value; a bool goes to the int branch. */
    method CompressData(v: Value) returns (o: Outcome)
      modifies stream`buffer, stream`readOffset
      decreases Size(v), 1
      ensures stream.buffer == old(stream.buffer) + Encode(v).bytes && o == Encode(v).outcome
    {
      match v
      case Obj(entries) => o := CompressObject(entries);
      case Str(s) => o := CompressString(s);
      case Int(n) => o := CompressInt(n);
      case Bool(b) => o := CompressInt(if b then 1 else 0);
      case List(items) => o := CompressList(items);
    }

    /** The bytes written so far. */
    method GetCompressBuffer() returns (r: seq<byte>)
      ensures r == stream.buffer
    {
      r := stream.GetBuffer();
    }
  }
}
