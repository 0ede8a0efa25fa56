/** How the encoder and the decoder fit together: which trees the encoder
    accepts, that the decoder gives back every accepted tree (with its booleans
    turned into integers, since they were written as integers), and the
    end-to-end use of the two objects, one after the other. */
module RoundTrip {
  import opened Bytes
  import opened Tags
  import opened Values
  import opened Encoder
  import opened Decoder

  /** `bytes` stand in `buf` from `pos` on. */
  predicate At(buf: seq<byte>, pos: nat, bytes: seq<byte>)
  {
    pos + |bytes| <= |buf| && buf[pos..pos + |bytes|] == bytes
  }

  /** Bytes that stand somewhere stand there part by part. */
  lemma {:induction false} AtSplit(buf: seq<byte>, pos: nat, a: seq<byte>, b: seq<byte>)
    requires At(buf, pos, a + b)
    ensures At(buf, pos, a) && At(buf, pos + |a|, b)
  {
    var whole := buf[pos..pos + |a + b|];
    assert buf[pos..pos + |a|] == whole[..|a|] == a;
    assert buf[pos + |a|..pos + |a| + |b|] == whole[|a|..] == b;
  }

  // ---------------------------------------------------------------------------
  // When the encoder succeeds

  /** The encoder ends without an error exactly on the trees it accepts. */
  lemma {:induction false} EncodeSucceedsIff(v: Value)
    ensures Encode(v).outcome == Pass <==> Encodable(v)
    decreases v
  {
    match v
    case Int(_) =>
    case Str(_) =>
    case Bool(_) =>
    case List(items) =>
      ItemsSucceedIff(items);
    case Obj(entries) =>
      EntriesSucceedIff(entries);
  }

  lemma {:induction false} ItemsSucceedIff(items: seq<Value>)
    ensures EncodeItems(items).outcome == Pass <==> forall i :: 0 <= i < |items| ==> Encodable(items[i])
    decreases items
  {
    if items != [] {
      EncodeSucceedsIff(items[0]);
      ItemsSucceedIff(items[1..]);
      assert forall i :: 0 < i < |items| ==> items[i] == items[1..][i - 1];
    }
  }

  lemma {:induction false} EntrySucceedsIff(e: (Value, Value))
    ensures EncodeEntry(e).outcome == Pass <==> EncodableKey(e.0) && Encodable(e.1)
    decreases e
  {
    EncodeSucceedsIff(e.1);
  }

  lemma {:induction false} EntriesSucceedIff(entries: seq<(Value, Value)>)
    ensures EncodeEntries(entries).outcome == Pass <==>
      forall i :: 0 <= i < |entries| ==> EncodableKey(entries[i].0) && Encodable(entries[i].1)
    decreases entries
  {
    if entries != [] {
      EntrySucceedsIff(entries[0]);
      EntriesSucceedIff(entries[1..]);
      assert forall i :: 0 < i < |entries| ==> entries[i] == entries[1..][i - 1];
    }
  }

  // ---------------------------------------------------------------------------
  // Decoding what the encoder wrote

  /** An INTEGER tag and a byte decode to that integer. */
  lemma IntegerAt(buf: seq<byte>, pos: nat, n: byte)
    requires pos + 2 <= |buf| && buf[pos] == TagByte(INTEGER) && buf[pos + 1] == n
    ensures DecodeValue(buf, pos) == Parsed(Ok(Int(n as int)), pos + 2)
  {
    assert ReadTypeAt(buf, pos) == Parsed(Ok(INTEGER), pos + 1);
  }

  /** A STRING tag and a string field decode to that string. */
  lemma StringAt(buf: seq<byte>, pos: nat, s: seq<byte>, next: nat)
    requires pos < |buf| && buf[pos] == TagByte(STRING)
    requires ReadStringAt(buf, pos + 1) == Parsed(Ok(s), next)
    ensures DecodeValue(buf, pos) == Parsed(Ok(Str(s)), next)
  {
    assert ReadTypeAt(buf, pos) == Parsed(Ok(STRING), pos + 1);
  }

  /** A LIST tag, a count and that many values decode to the list of them. */
  lemma ListAt(buf: seq<byte>, pos: nat, values: seq<Value>, next: nat)
    requires pos + 2 <= |buf| && buf[pos] == TagByte(LIST) && buf[pos + 1] as int == |values|
    requires values == [] ==> next == pos + 2
    requires values != [] ==> DecodeItems(buf, pos + 2, |values|, []) == Parsed(Ok(values), next)
    ensures DecodeValue(buf, pos) == Parsed(Ok(List(values)), next)
  {
    assert ReadTypeAt(buf, pos) == Parsed(Ok(LIST), pos + 1);
    assert ReadByteAt(buf, pos + 1) == Parsed(Ok(|values| as byte), pos + 2);
  }

  /** An OBJECT tag, a count and that many items decode to the dict of them. */
  lemma ObjectAt(buf: seq<byte>, pos: nat, n: nat, entries: seq<(Value, Value)>, next: nat)
    requires pos + 2 <= |buf| && buf[pos] == TagByte(OBJECT) && buf[pos + 1] as int == n
    requires DecodeEntries(buf, pos + 2, n, []) == Parsed(Ok(entries), next)
    ensures DecodeValue(buf, pos) == Parsed(Ok(Obj(entries)), next)
  {
    assert ReadTypeAt(buf, pos) == Parsed(Ok(OBJECT), pos + 1);
    assert ReadByteAt(buf, pos + 1) == Parsed(Ok(n as byte), pos + 2);
  }

  /** An integer (or boolean) the encoder wrote is its tag and its byte. */
  lemma IntLayout(n: int)
    requires EncodeInt(n).outcome == Pass
    ensures 0 <= n < 256 && EncodeInt(n).bytes == [TagByte(INTEGER), n as byte]
  {
  }

  /** When the encoder wrote `v` without error and every dict in `v` has distinct
      keys, the decoder reading those bytes, wherever they stand and whatever
      follows them, returns `v` with its booleans as integers and stops right
      after them. */
  lemma {:induction false} DecodeEncoded(v: Value, buf: seq<byte>, pos: nat)
    requires Encode(v).outcome == Pass && UniqueKeys(v)
    requires At(buf, pos, Encode(v).bytes)
    ensures DecodeValue(buf, pos) == Parsed(Ok(BoolsToInts(v)), pos + |Encode(v).bytes|)
    decreases v, 2
  {
    match v
    case Int(n) =>
      DecodeEncodedInt(n, buf, pos);
    case Bool(b) =>
      DecodeEncodedInt(if b then 1 else 0, buf, pos);
    case Str(s) =>
      DecodeEncodedString(s, buf, pos);
    case List(items) =>
      DecodeEncodedList(items, buf, pos);
    case Obj(entries) =>
      DecodeEncodedObject(entries, buf, pos);
  }

  lemma DecodeEncodedInt(n: int, buf: seq<byte>, pos: nat)
    requires EncodeInt(n).outcome == Pass && At(buf, pos, EncodeInt(n).bytes)
    ensures DecodeValue(buf, pos) == Parsed(Ok(Int(n)), pos + |EncodeInt(n).bytes|)
  {
    IntLayout(n);
    AtSplit(buf, pos, [TagByte(INTEGER)], [n as byte]);
    IntegerAt(buf, pos, n as byte);
  }

  lemma DecodeEncodedString(s: seq<byte>, buf: seq<byte>, pos: nat)
    requires EncodeString(s).outcome == Pass && At(buf, pos, EncodeString(s).bytes)
    ensures DecodeValue(buf, pos) == Parsed(Ok(Str(s)), pos + |EncodeString(s).bytes|)
  {
    assert EncodeString(s).bytes == [TagByte(STRING)] + LengthPrefixed(s);
    AtSplit(buf, pos, [TagByte(STRING)], LengthPrefixed(s));
    ReadStringInvertsWrite(buf, pos + 1, s);
    StringAt(buf, pos, s, pos + 1 + |s| + 1);
  }

  lemma {:induction false} DecodeEncodedList(items: seq<Value>, buf: seq<byte>, pos: nat)
    requires EncodeList(items).outcome == Pass && forall i :: 0 <= i < |items| ==> UniqueKeys(items[i])
    requires At(buf, pos, EncodeList(items).bytes)
    ensures DecodeValue(buf, pos) == Parsed(Ok(List(ItemsBoolsToInts(items))), pos + |EncodeList(items).bytes|)
    decreases items, 1
  {
    ListFields(items, buf, pos);
    if items != [] {
      DecodeEncodedItems(items, buf, pos + 2, []);
      assert [] + ItemsBoolsToInts(items) == ItemsBoolsToInts(items);
    }
    ListAt(buf, pos, ItemsBoolsToInts(items), pos + |EncodeList(items).bytes|);
  }

  lemma {:induction false} DecodeEncodedObject(entries: seq<(Value, Value)>, buf: seq<byte>, pos: nat)
    requires EncodeObject(entries).outcome == Pass && DistinctKeys(entries)
    requires forall i :: 0 <= i < |entries| ==> UniqueKeys(entries[i].1)
    requires At(buf, pos, EncodeObject(entries).bytes)
    ensures DecodeValue(buf, pos) == Parsed(Ok(Obj(EntriesBoolsToInts(entries))), pos + |EncodeObject(entries).bytes|)
    decreases entries, 1
  {
    ObjectFields(entries, buf, pos);
    DecodeEncodedEntries(entries, buf, pos + 2, []);
    assert [] + EntriesBoolsToInts(entries) == EntriesBoolsToInts(entries);
    ObjectAt(buf, pos, |entries|, EntriesBoolsToInts(entries), pos + |EncodeObject(entries).bytes|);
  }

  /** Where the tag, the count and the items of an encoded dict stand. */
  lemma ObjectFields(entries: seq<(Value, Value)>, buf: seq<byte>, pos: nat)
    requires EncodeObject(entries).outcome == Pass && At(buf, pos, EncodeObject(entries).bytes)
    ensures EncodeEntries(entries).outcome == Pass && |entries| < 256
    ensures pos + 2 <= |buf| && buf[pos] == TagByte(OBJECT) && buf[pos + 1] as int == |entries|
    ensures At(buf, pos + 2, EncodeEntries(entries).bytes)
    ensures |EncodeObject(entries).bytes| == 2 + |EncodeEntries(entries).bytes|
  {
    ObjectLayout(entries);
    var body := EncodeEntries(entries).bytes;
    AtSplit(buf, pos, [TagByte(OBJECT)], [|entries| as byte] + body);
    AtSplit(buf, pos + 1, [|entries| as byte], body);
    assert buf[pos] == buf[pos..pos + 1][0] == TagByte(OBJECT);
    assert buf[pos + 1] == buf[pos + 1..pos + 2][0] == |entries| as byte;
  }

  /** Where the tag, the count and the elements of an encoded list stand. */
  lemma ListFields(items: seq<Value>, buf: seq<byte>, pos: nat)
    requires EncodeList(items).outcome == Pass && At(buf, pos, EncodeList(items).bytes)
    ensures EncodeItems(items).outcome == Pass && |items| < 256
    ensures pos + 2 <= |buf| && buf[pos] == TagByte(LIST) && buf[pos + 1] as int == |items|
    ensures At(buf, pos + 2, EncodeItems(items).bytes)
    ensures |EncodeList(items).bytes| == 2 + |EncodeItems(items).bytes|
  {
    ListLayout(items);
    var body := EncodeItems(items).bytes;
    AtSplit(buf, pos, [TagByte(LIST)], [|items| as byte] + body);
    AtSplit(buf, pos + 1, [|items| as byte], body);
    assert buf[pos] == buf[pos..pos + 1][0] == TagByte(LIST);
    assert buf[pos + 1] == buf[pos + 1..pos + 2][0] == |items| as byte;
  }

  /** One pass of the list loop: a value decoded at the cursor joins what was built. */
  lemma ItemsAt(buf: seq<byte>, pos: nat, n: nat, acc: seq<Value>, x: Value, next: nat)
    requires 0 < n
    requires DecodeValue(buf, pos) == Parsed(Ok(x), next)
    ensures DecodeItems(buf, pos, n, acc) == DecodeItems(buf, next, n - 1, acc + [x])
  {
  }

  /** One pass of the dict loop: a key and a value decoded at the cursor are
      assigned into what was built. */
  lemma EntriesAt(buf: seq<byte>, pos: nat, n: nat, acc: seq<(Value, Value)>, key: Value, mid: nat, x: Value, next: nat)
    requires 0 < n && key.Str?
    requires ReadStringAt(buf, pos) == Parsed(Ok(key.s), mid)
    requires DecodeValue(buf, mid) == Parsed(Ok(x), next)
    ensures DecodeEntries(buf, pos, n, acc) == DecodeEntries(buf, next, n - 1, Insert(acc, key, x))
  {
  }

  /** Elements written without error: the first one's bytes, then the others'. */
  lemma ItemsHead(items: seq<Value>)
    requires items != [] && EncodeItems(items).outcome == Pass
    ensures Encode(items[0]).outcome == Pass && EncodeItems(items[1..]).outcome == Pass
    ensures EncodeItems(items).bytes == Encode(items[0]).bytes + EncodeItems(items[1..]).bytes
  {
  }

  /** Items written without error: the first one's bytes, then the others'. */
  lemma EntriesHead(entries: seq<(Value, Value)>)
    requires entries != [] && EncodeEntries(entries).outcome == Pass
    ensures EncodeEntry(entries[0]).outcome == Pass && EncodeEntries(entries[1..]).outcome == Pass
    ensures EncodeEntries(entries).bytes == EncodeEntry(entries[0]).bytes + EncodeEntries(entries[1..]).bytes
  {
  }

  /** The list loop reads back each element in order onto what it has built. */
  lemma {:induction false} DecodeEncodedItems(items: seq<Value>, buf: seq<byte>, pos: nat, acc: seq<Value>)
    requires EncodeItems(items).outcome == Pass
    requires forall i :: 0 <= i < |items| ==> UniqueKeys(items[i])
    requires At(buf, pos, EncodeItems(items).bytes)
    ensures DecodeItems(buf, pos, |items|, acc) == Parsed(Ok(acc + ItemsBoolsToInts(items)), pos + |EncodeItems(items).bytes|)
    decreases items, 0
  {
    if items == [] {
      assert acc + [] == acc;
    } else {
      var head, rest := items[0], items[1..];
      ItemsHead(items);
      AtSplit(buf, pos, Encode(head).bytes, EncodeItems(rest).bytes);
      DecodeEncoded(head, buf, pos);
      var next := pos + |Encode(head).bytes|;
      ItemsAt(buf, pos, |items|, acc, BoolsToInts(head), next);
      assert |rest| == |items| - 1;
      assert forall i :: 0 <= i < |rest| ==> rest[i] == items[i + 1];
      DecodeEncodedItems(rest, buf, next, acc + [BoolsToInts(head)]);
      assert ItemsBoolsToInts(items) == [BoolsToInts(head)] + ItemsBoolsToInts(rest);
      AppendAssociative(acc, [BoolsToInts(head)], ItemsBoolsToInts(rest));
    }
  }

  /** An item written without error is a key of the right size as a
      length-prefixed string, then its value's bytes. */
  lemma EntryFields(e: (Value, Value), buf: seq<byte>, pos: nat)
    requires EncodeEntry(e).outcome == Pass && At(buf, pos, EncodeEntry(e).bytes)
    ensures EncodableKey(e.0) && Encode(e.1).outcome == Pass
    ensures At(buf, pos, LengthPrefixed(e.0.s))
    ensures At(buf, pos + |e.0.s| + 1, Encode(e.1).bytes)
    ensures |EncodeEntry(e).bytes| == |e.0.s| + 1 + |Encode(e.1).bytes|
  {
    EntryLayout(e);
    AtSplit(buf, pos, LengthPrefixed(e.0.s), Encode(e.1).bytes);
  }

  /** One pass of the dict loop over an encoded item: the key string is read back
      as written, then the value, ending just past the item's bytes. */
  lemma {:induction false} DecodeEncodedEntry(e: (Value, Value), buf: seq<byte>, pos: nat)
    requires EncodeEntry(e).outcome == Pass && UniqueKeys(e.1)
    requires At(buf, pos, EncodeEntry(e).bytes)
    ensures EncodableKey(e.0) && EntryBoolsToInts(e) == (e.0, BoolsToInts(e.1))
    ensures ReadStringAt(buf, pos) == Parsed(Ok(e.0.s), pos + |e.0.s| + 1)
    ensures DecodeValue(buf, pos + |e.0.s| + 1) == Parsed(Ok(BoolsToInts(e.1)), pos + |EncodeEntry(e).bytes|)
    decreases e, 0
  {
    EntryFields(e, buf, pos);
    ReadStringInvertsWrite(buf, pos, e.0.s);
    DecodeEncoded(e.1, buf, pos + |e.0.s| + 1);
  }

  /** Keys that differ from one another and from those already built stay so
      after the first of them is added. */
  lemma FreshKeys(entries: seq<(Value, Value)>, acc: seq<(Value, Value)>, x: Value)
    requires entries != [] && DistinctKeys(entries)
    requires forall i, j :: 0 <= i < |entries| && 0 <= j < |acc| ==> entries[i].0 != acc[j].0
    ensures entries[0].0 !in KeysOf(acc)
    ensures DistinctKeys(entries[1..])
    ensures forall i, j :: 0 <= i < |entries| - 1 && 0 <= j < |acc| + 1 ==> entries[1..][i].0 != (acc + [(entries[0].0, x)])[j].0
  {
    forall i, j | 0 <= i < |entries| - 1 && 0 <= j < |acc| + 1
      ensures entries[1..][i].0 != (acc + [(entries[0].0, x)])[j].0
    {
      if j < |acc| {
        assert entries[i + 1].0 != acc[j].0;
      } else {
        assert entries[i + 1].0 != entries[0].0;
      }
    }
  }

  /** What the dict loop needs after its first item: the first item's bytes and
      the rest's bytes stand one after the other, the rest still meets every
      condition, and the first assignment appends the first item. */
  lemma EntriesRest(entries: seq<(Value, Value)>, buf: seq<byte>, pos: nat, acc: seq<(Value, Value)>)
    requires entries != []
    requires EncodeEntries(entries).outcome == Pass && DistinctKeys(entries)
    requires forall i :: 0 <= i < |entries| ==> UniqueKeys(entries[i].1)
    requires forall i, j :: 0 <= i < |entries| && 0 <= j < |acc| ==> entries[i].0 != acc[j].0
    requires At(buf, pos, EncodeEntries(entries).bytes)
    ensures EncodeEntry(entries[0]).outcome == Pass && UniqueKeys(entries[0].1)
    ensures At(buf, pos, EncodeEntry(entries[0]).bytes)
    ensures EncodeEntries(entries[1..]).outcome == Pass && DistinctKeys(entries[1..])
    ensures forall i :: 0 <= i < |entries[1..]| ==> UniqueKeys(entries[1..][i].1)
    ensures At(buf, pos + |EncodeEntry(entries[0]).bytes|, EncodeEntries(entries[1..]).bytes)
    ensures |EncodeEntries(entries).bytes| == |EncodeEntry(entries[0]).bytes| + |EncodeEntries(entries[1..]).bytes|
    ensures Insert(acc, entries[0].0, BoolsToInts(entries[0].1)) == acc + [(entries[0].0, BoolsToInts(entries[0].1))]
    ensures forall i, j :: 0 <= i < |entries[1..]| && 0 <= j < |acc| + 1 ==>
      entries[1..][i].0 != (acc + [(entries[0].0, BoolsToInts(entries[0].1))])[j].0
  {
    var head, rest := entries[0], entries[1..];
    EntriesHead(entries);
    AtSplit(buf, pos, EncodeEntry(head).bytes, EncodeEntries(rest).bytes);
    FreshKeys(entries, acc, BoolsToInts(head.1));
    InsertNew(acc, head.0, BoolsToInts(head.1));
    assert forall i :: 0 <= i < |rest| ==> rest[i] == entries[i + 1];
  }

  /** The dict loop reads back each item in order; since no key repeats and none
      is already in `acc`, every assignment appends a new item. */
  lemma {:induction false} DecodeEncodedEntries(entries: seq<(Value, Value)>, buf: seq<byte>, pos: nat, acc: seq<(Value, Value)>)
    requires EncodeEntries(entries).outcome == Pass && DistinctKeys(entries)
    requires forall i :: 0 <= i < |entries| ==> UniqueKeys(entries[i].1)
    requires forall i, j :: 0 <= i < |entries| && 0 <= j < |acc| ==> entries[i].0 != acc[j].0
    requires At(buf, pos, EncodeEntries(entries).bytes)
    ensures DecodeEntries(buf, pos, |entries|, acc) == Parsed(Ok(acc + EntriesBoolsToInts(entries)), pos + |EncodeEntries(entries).bytes|)
    decreases entries, 0
  {
    if entries == [] {
      assert acc + [] == acc;
    } else {
      var head, rest := entries[0], entries[1..];
      EntriesRest(entries, buf, pos, acc);
      DecodeEncodedEntry(head, buf, pos);
      var decoded := (head.0, BoolsToInts(head.1));
      var next, built := pos + |EncodeEntry(head).bytes|, acc + [decoded];
      EntriesAt(buf, pos, |entries|, acc, head.0, pos + |head.0.s| + 1, decoded.1, next);
      assert |rest| == |entries| - 1;
      assert DecodeEntries(buf, pos, |entries|, acc) == DecodeEntries(buf, next, |rest|, built);
      DecodeEncodedEntries(rest, buf, next, built);
      EntriesBoolsToIntsHead(entries);
      AppendAssociative(acc, [decoded], EntriesBoolsToInts(rest));
      assert built + EntriesBoolsToInts(rest) == acc + EntriesBoolsToInts(entries);
      assert next + |EncodeEntries(rest).bytes| == pos + |EncodeEntries(entries).bytes|;
    }
  }

  /** `decompress(compress(v))`: the decoder returns the encoded tree, with its
      booleans as integers, and reads exactly the encoder's bytes. */
  lemma RoundTrip(v: Value, rest: seq<byte>)
    requires Encodable(v) && UniqueKeys(v)
    ensures Encode(v).outcome == Pass
    ensures DecodeValue(Encode(v).bytes + rest, 0) == Parsed(Ok(BoolsToInts(v)), |Encode(v).bytes|)
    ensures Decompress(Encode(v).bytes + rest) == Ok(BoolsToInts(v))
  {
    EncodeSucceedsIff(v);
    var buf := Encode(v).bytes + rest;
    assert buf[0..|Encode(v).bytes|] == Encode(v).bytes;
    DecodeEncoded(v, buf, 0);
  }

  /** A tree without booleans comes back exactly as it was. */
  lemma RoundTripExact(v: Value)
    requires Encodable(v) && UniqueKeys(v) && BoolFree(v)
    ensures Decompress(Encode(v).bytes) == Ok(v)
  {
    RoundTrip(v, []);
    assert Encode(v).bytes + [] == Encode(v).bytes;
    BoolFreeUnchanged(v);
  }

  // ---------------------------------------------------------------------------
  // Booleans are integers to the encoder

  /** The encoder writes the same bytes, and ends the same way, for a tree and for
      the same tree with its booleans turned into integers. */
  lemma {:induction false} EncodeIgnoresBools(v: Value)
    ensures Encode(BoolsToInts(v)) == Encode(v)
    decreases v
  {
    match v
    case Int(_) =>
    case Str(_) =>
    case Bool(_) =>
    case List(items) =>
      ItemsIgnoreBools(items);
    case Obj(entries) =>
      EntriesIgnoreBools(entries);
  }

  lemma {:induction false} ItemsIgnoreBools(items: seq<Value>)
    ensures EncodeItems(ItemsBoolsToInts(items)) == EncodeItems(items)
    decreases items
  {
    if items != [] {
      EncodeIgnoresBools(items[0]);
      ItemsIgnoreBools(items[1..]);
      var converted := ItemsBoolsToInts(items);
      assert converted[0] == BoolsToInts(items[0]) && converted[1..] == ItemsBoolsToInts(items[1..]);
    }
  }

  lemma {:induction false} EntryIgnoresBools(e: (Value, Value))
    ensures EncodeEntry(EntryBoolsToInts(e)) == EncodeEntry(e)
    decreases e
  {
    EncodeIgnoresBools(e.1);
  }

  lemma {:induction false} EntriesIgnoreBools(entries: seq<(Value, Value)>)
    ensures EncodeEntries(EntriesBoolsToInts(entries)) == EncodeEntries(entries)
    decreases entries
  {
    if entries != [] {
      EntryIgnoresBools(entries[0]);
      EntriesIgnoreBools(entries[1..]);
      var converted := EntriesBoolsToInts(entries);
      assert converted[0] == EntryBoolsToInts(entries[0]) && converted[1..] == EntriesBoolsToInts(entries[1..]);
    }
  }

  /** Compressing what the decoder returned gives back the very same bytes. */
  lemma ReencodeDecoded(v: Value)
    requires Encodable(v) && UniqueKeys(v)
    ensures Decompress(Encode(v).bytes).Ok?
    ensures Encode(Decompress(Encode(v).bytes).value) == Encode(v)
  {
    RoundTrip(v, []);
    assert Encode(v).bytes + [] == Encode(v).bytes;
    EncodeIgnoresBools(v);
  }

  // ---------------------------------------------------------------------------
  // The two objects, one after the other

  /** Builds a compressor over `v`, compresses, takes its buffer, builds a
      decompressor over that buffer and decompresses, returning the compressed
      bytes and what the decompressor returned. */
  method CompressThenDecompress(v: Value) returns (compressed: seq<byte>, r: Result<Value>)
    requires Encodable(v) && UniqueKeys(v)
    ensures compressed == Encode(v).bytes
    ensures r == Ok(BoolsToInts(v))
  {
    var compressor := new JsonCompressor(v);
    var o := compressor.Compress();
    compressed := compressor.GetCompressBuffer();
    var decompressor := new JsonDecompressor(compressed);
    r := decompressor.Decompress();
    assert compressed == [] + Encode(v).bytes == Encode(v).bytes + [];
    RoundTrip(v, []);
  }

  /** The dict of the repository's example script, `{"key1": 122}`. */
  const ExampleDict: Value := Obj([(Str([107, 101, 121, 49]), Int(122))])

  /** The tree of the repository's example script: a string, an integer, two
      booleans and that dict. */
  const ExampleTree: Value :=
    List([Str([73, 116, 101, 109, 49]), Int(64), Bool(true), Bool(false), ExampleDict])

  /** The compressed dict: its tag, one item, the key "key1", the integer 122. */
  const ExampleDictBytes: seq<byte> := [5, 1] + ([4, 107, 101, 121, 49] + [1, 122])

  /** The compressed elements, one after the other; the booleans go out as
      INTEGER 1 and INTEGER 0. */
  const ExampleItemsBytes: seq<byte> :=
    [2, 5, 73, 116, 101, 109, 49] + ([1, 64] + ([1, 1] + ([1, 0] + ExampleDictBytes)))

  /** The 24 compressed bytes of the tree: the LIST tag, the count 5, the elements. */
  const ExampleBytes: seq<byte> := [4] + ([5] + ExampleItemsBytes)

  // Each example lemma below takes its tree as a parameter pinned to the constant
  // by `requires`, so that the solver unfolds the constant's literal only where
  // the proof asks for it, rather than in every query that mentions it.

  lemma ExampleDictCompresses(dict: Value)
    requires dict == ExampleDict
    ensures Encode(dict) == Encoded(ExampleDictBytes, Pass)
  {
    var entries := dict.entries;
    assert EncodeEntries(entries).bytes == [4, 107, 101, 121, 49] + [1, 122];
    ObjectLayout(entries);
  }

  /** The last three elements: the two booleans as integers, then the dict. */
  lemma ExampleTailCompresses(items: seq<Value>)
    requires items == ExampleTree.items
    ensures EncodeItems(items[2..]) == Encoded([1, 1] + ([1, 0] + ExampleDictBytes), Pass)
  {
    ExampleDictCompresses(items[4]);
    assert items[4..] == [items[4]];
    assert EncodeItems(items[4..]) == Encoded(ExampleDictBytes, Pass);
    assert EncodeItems(items[3..]) == Encoded([1, 0] + ExampleDictBytes, Pass);
  }

  /** The elements: the string "Item1", the integer 64, then the rest. */
  lemma ExampleItemsCompress(items: seq<Value>)
    requires items == ExampleTree.items
    ensures EncodeItems(items) == Encoded(ExampleItemsBytes, Pass)
  {
    ExampleTailCompresses(items);
    assert Encode(items[0]) == Encoded([2, 5, 73, 116, 101, 109, 49], Pass);
    assert EncodeItems(items[1..]) == Encoded([1, 64] + ([1, 1] + ([1, 0] + ExampleDictBytes)), Pass);
  }

  /** The example compresses to those bytes. */
  lemma ExampleCompresses(tree: Value)
    requires tree == ExampleTree
    ensures Encode(tree) == Encoded(ExampleBytes, Pass)
  {
    var items := tree.items;
    ExampleItemsCompress(items);
    ListLayout(items);
    assert |items| == 5 && TagByte(LIST) == 4;
    assert Encode(tree) == EncodeList(items);
  }

  /** Turning its booleans into integers gives 1 and 0 in their places. */
  lemma ExampleWithoutBools(tree: Value)
    requires tree == ExampleTree
    ensures BoolsToInts(tree) == List([Str([73, 116, 101, 109, 49]), Int(64), Int(1), Int(0), ExampleDict])
  {
    var items := tree.items;
    assert EntriesBoolsToInts(ExampleDict.entries) == ExampleDict.entries;
    assert ItemsBoolsToInts(items[4..]) == [ExampleDict];
    assert ItemsBoolsToInts(items[3..]) == [Int(0), ExampleDict];
    assert ItemsBoolsToInts(items[2..]) == [Int(1), Int(0), ExampleDict];
    assert ItemsBoolsToInts(items[1..]) == [Int(64), Int(1), Int(0), ExampleDict];
    assert ItemsBoolsToInts(items) == [BoolsToInts(items[0])] + ItemsBoolsToInts(items[1..]);
    assert BoolsToInts(items[0]) == items[0];
  }

  /** The example decompresses to the same tree with `True` and `False` read back
      as 1 and 0. */
  lemma ExampleDecompresses(tree: Value)
    requires tree == ExampleTree
    ensures Decompress(ExampleBytes) == Ok(List([Str([73, 116, 101, 109, 49]), Int(64), Int(1), Int(0), ExampleDict]))
  {
    ExampleCompresses(tree);
    ExampleWithoutBools(tree);
    assert UniqueKeys(tree.items[4]);
    assert UniqueKeys(tree);
    RoundTrip(tree, []);
    assert ExampleBytes + [] == ExampleBytes;
  }
}
