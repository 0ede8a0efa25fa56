# JsonCompressor, modelled in Dafny

JsonCompressor is a small binary tag-length-value codec for JSON-like value trees.
`JsonCompressor` walks a tree of Python ints, strings, booleans, lists and dicts. For every
value it writes a one-byte type tag into a `BinaryStream`, followed by a payload:

- an integer: one byte;
- a string: one length byte, then its bytes;
- a list: one count byte, then its elements;
- a dict: one count byte, then each key as a length-prefixed string followed by its value.

`JsonDecompressor` wraps the produced bytes in a fresh stream and reads one value back by
recursive descent.

This project models that core:

- `Bytes`: the byte type, the three exceptions the core raises (`Error`), and the pure reads
  `ReadByteAt` / `ReadStringAt`. It also holds the `BinaryStream` class, whose byte buffer
  and read cursor its methods update in place.
- `Tags`: the `CompressTypes` enumeration and the conversion from a byte back to a member.
- `Values`: the value tree, and Python's dict assignment (`Insert`) over insertion-ordered
  items.
- `Encoder`: the pure specification `Encode`, which gives the bytes a value appends and how
  the encoding ends. It also holds the `JsonCompressor` class, whose methods are proved to
  append exactly those bytes.
- `Decoder`: the pure specification `DecodeValue(buf, pos)`, which gives the result and where
  the cursor is left. It also holds the `JsonDecompressor` class, whose methods are proved to
  read exactly that.
- `RoundTrip`:
  - which trees the encoder accepts;
  - that the decoder gives every accepted tree back, and reads exactly the encoder's bytes
    whatever follows;
  - the two objects used one after the other;
  - the repository's example script.

The model follows the code on these points:

- **Booleans.** A Python `bool` is an `int`, so `_compress_data` sends it down the integer
  branch. `True` and `False` are written as INTEGER 1 and INTEGER 0, and the BOOLEAN tag is
  never written. The decoder therefore returns them as the integers 1 and 0: the round trip
  gives back `BoolsToInts(v)`, and gives back `v` itself only for trees without booleans.
  The decoder still reads the BOOLEAN tag when it meets one.
- **Short strings are not rejected.** `read_string` does not check that the declared number
  of bytes is present. It returns the shorter tail of the buffer and moves the cursor past
  the end.
- **Errors come after writing.** The tag and the count are written before a count or a
  length is checked. A non-string dict key raises TypeError after the tag, the count and the
  earlier items have been written. Nothing is rolled back.
- **Error names.** The code raises ValueError, TypeError and BinaryStreamError. A negative integer is rejected with ValueError by `bytearray.append`.
- **Writes move the read cursor.** `write_byte` also advances the read cursor, so a stream
  written to reports that cursor.

## Model

| member | source | states |
|---|---|---|
| Bytes.BinaryStream.constructor | compressor/binary_stream.py:6-11 | the stream holds the given bytes, with its read cursor at 0 |
| Bytes.BinaryStream.ReadByte | compressor/binary_stream.py:13-20 | at or past the end: BinaryStreamError, cursor unchanged; otherwise the byte under the cursor, and the cursor moves by exactly 1; the buffer is never modified |
| Bytes.BinaryStream.ReadString | compressor/binary_stream.py:22-26 | reads a length byte L, returns the next L bytes as far as the buffer has them, and moves the cursor by 1 + L; the buffer is never modified |
| Bytes.ReadStringInvertsWrite | compressor/binary_stream.py:22-42 | when the bytes at the cursor are a length-prefixed `s`, `read_string` returns exactly `s`, with the cursor just past them, whatever follows |
| Bytes.ReadStringPastEnd | compressor/binary_stream.py:22-26 | when fewer than L bytes remain, `read_string` succeeds with a string shorter than L and leaves the cursor past the end of the buffer |
| Bytes.LengthPrefixed | compressor/binary_stream.py:37-42 | the written field is one byte longer than the string: the length first, then the string's bytes |
| Bytes.BinaryStream.WriteByte | compressor/binary_stream.py:28-32 | a value in 0..255 is appended after the unchanged earlier bytes and the read cursor moves by 1; any other value raises ValueError and changes nothing |
| Bytes.BinaryStream.WriteBool | compressor/binary_stream.py:34-35 | appends 1 for true and 0 for false |
| Bytes.BinaryStream.WriteString | compressor/binary_stream.py:37-42 | a string of at most 255 bytes appends its length, then its bytes; a longer one raises ValueError with nothing written |
| Bytes.BinaryStream.GetBuffer | compressor/binary_stream.py:44-45 | returns the current contents of the buffer |
| Bytes.BinaryStream.GetCurrentReadOffset | compressor/binary_stream.py:47-48 | returns the read cursor |
| Tags.TagByte | compressor/dtypes.py:16-20 | every member's value lies in 1..5, so none is 0 and each fits in one byte |
| Tags.FromByte | compressor/dtypes.py:4-20 | `CompressTypes(b)` succeeds exactly for b in 1..5, returning the member whose value is b; any other byte raises ValueError |
| Tags.TagRoundTrip | compressor/dtypes.py:16-20 | member values are pairwise distinct, and a member's value converts back to that member |
| Values.InsertLookup | compressor/decompressor.py:33 | after `d[k] = v`, `d[k]` is `v` and every other key maps to what it mapped to before |
| Values.InsertKeys | compressor/decompressor.py:33 | after `d[k] = v` the keys keep their order, with `k` appended only if it was new |
| Values.InsertNew | compressor/decompressor.py:33 | assigning a key that is not yet present appends the item at the end |
| Values.InsertDistinct | compressor/decompressor.py:33 | assigning a key adds at most one item, and keeps the keys of a dict pairwise distinct |
| Encoder.Encode | compressor/compressor.py:50-61 | the first byte written for any value is the tag of its kind; a boolean's is INTEGER |
| Encoder.IntEncoding | compressor/compressor.py:38-40 | an integer in 0..255 encodes to [1, n]; any other integer leaves [1] written and raises ValueError |
| Encoder.BoolEncoding | compressor/compressor.py:50-61 | a boolean encodes to [1, 1] or [1, 0], exactly as the integer 1 or 0 |
| Encoder.StringEncoding | compressor/compressor.py:34-36 | a string of at most 255 bytes encodes to [2, length] followed by its bytes; a longer one leaves [2] written and raises ValueError |
| Encoder.OversizedContainer | compressor/compressor.py:25-45 | a list or dict with more than 255 members leaves only its tag written and raises ValueError |
| Encoder.EmptyContainers | compressor/compressor.py:25-48 | the empty list encodes to [4, 0] and the empty dict to [5, 0] |
| Encoder.NonStringKey | compressor/compressor.py:28-30 | a non-string key raises TypeError after the tag, the count and all earlier items have been written |
| Encoder.ListLayout | compressor/compressor.py:42-48 | a list that fits the count byte encodes to its tag, its count, then its elements' encodings in order |
| Encoder.ObjectLayout | compressor/compressor.py:25-32 | a dict that fits the count byte encodes to its tag, its count, then its items in iteration order |
| Encoder.EntryLayout | compressor/compressor.py:28-32 | an item's key is checked for type, then for length; an accepted item is the key as a length-prefixed string, then the value's encoding |
| Encoder.ItemsAppend | compressor/compressor.py:46-47 | encoding the elements of `p + q` is encoding `p`, then `q` only if `p` raised nothing |
| Encoder.EntriesAppend | compressor/compressor.py:28-32 | encoding the items of `p + q` is encoding `p`, then `q` only if `p` raised nothing |
| Encoder.JsonCompressor.constructor | compressor/compressor.py:8-15 | the compressor holds the given tree and a fresh, empty stream |
| Encoder.JsonCompressor.Compress | compressor/compressor.py:17-18 | the stream grows by exactly `Encode(json)`'s bytes, and the call ends as `Encode(json)` does |
| Encoder.JsonCompressor.PushType | compressor/compressor.py:20-23 | appends the tag's byte; the guard against a value of 0 or below never fires |
| Encoder.JsonCompressor.CompressObject | compressor/compressor.py:25-32 | the stream grows by exactly the dict's encoding, including the bytes written before an error, and the call ends as that encoding does |
| Encoder.JsonCompressor.CompressEntry | compressor/compressor.py:28-32 | one pass of the dict loop appends exactly the item's encoding and ends as it does |
| Encoder.JsonCompressor.CompressString | compressor/compressor.py:34-36 | the stream grows by exactly the string's encoding |
| Encoder.JsonCompressor.CompressInt | compressor/compressor.py:38-40 | the stream grows by exactly the integer's encoding |
| Encoder.JsonCompressor.CompressList | compressor/compressor.py:42-48 | the stream grows by exactly the list's encoding, including the bytes written before an error, and the call ends as that encoding does |
| Encoder.JsonCompressor.CompressData | compressor/compressor.py:50-61 | the stream grows by exactly `Encode(v)`'s bytes, and the call ends as `Encode(v)` does |
| Encoder.JsonCompressor.GetCompressBuffer | compressor/compressor.py:63-64 | returns the bytes written so far |
| Decoder.DecodeValue | compressor/decompressor.py:46-61 | the cursor never moves back; a successful read consumes at least the tag and one more byte; at the end of the buffer it raises BinaryStreamError |
| Decoder.DecodeList | compressor/decompressor.py:36-44 | a successful read returns exactly as many values as the count byte says |
| Decoder.DecodeItems | compressor/decompressor.py:42-44 | with `n` passes to go, a successful loop ends with `n` more values than it started with |
| Decoder.DecodeObject | compressor/decompressor.py:26-34 | a successful read consumes at least the count byte, and the cursor never moves back; the dict it returns has pairwise distinct keys and at most as many items as the count byte says |
| Decoder.DecodeEntries | compressor/decompressor.py:30-34 | the dict loop never moves the cursor back |
| Decoder.UnknownTag | compressor/decompressor.py:11-12 | a tag byte outside 1..5 raises ValueError once it has been consumed |
| Decoder.ScalarTags | compressor/decompressor.py:20-24 | tag 1 returns the next byte as an integer, and tag 3 returns whether it is nonzero |
| Decoder.MissingPayload | compressor/decompressor.py:46-61 | a valid tag at the very end of the buffer raises BinaryStreamError |
| Decoder.EmptyContainerTags | compressor/decompressor.py:26-44 | a list or dict tag with count 0 returns the empty list or dict after two bytes |
| Decoder.EntriesDistinct | compressor/decompressor.py:30-34 | each pass of the dict loop adds at most one item, and a dict whose keys were distinct keeps them distinct |
| Decoder.DuplicateKeyOverwrites | compressor/decompressor.py:30-33 | example: the bytes of `{"a": 1, "a": 2}` decode to the one-item dict `{"a": 2}`; the repeated key keeps its first position and takes the later value |
| Decoder.JsonDecompressor.constructor | compressor/decompressor.py:7-9 | the decompressor holds the given bytes and a fresh stream over them, with its cursor at 0 |
| Decoder.JsonDecompressor.ReadType | compressor/decompressor.py:11-12 | returns `ReadTypeAt`'s result and leaves the cursor where it says |
| Decoder.JsonDecompressor.Decompress | compressor/decompressor.py:14-15 | returns `DecodeValue`'s result from the current cursor and leaves the cursor where it says |
| Decoder.JsonDecompressor.DecompressString | compressor/decompressor.py:17-18 | returns the next length-prefixed string, as `ReadStringAt` specifies |
| Decoder.JsonDecompressor.DecompressInteger | compressor/decompressor.py:20-21 | returns the next byte as an integer, or BinaryStreamError at the end |
| Decoder.JsonDecompressor.DecompressBoolean | compressor/decompressor.py:23-24 | returns whether the next byte is nonzero, or BinaryStreamError at the end |
| Decoder.JsonDecompressor.DecompressObject | compressor/decompressor.py:26-34 | the in-place dict loop returns `DecodeObject`'s result and leaves the cursor where it says |
| Decoder.JsonDecompressor.DecompressList | compressor/decompressor.py:36-44 | the in-place list loop returns `DecodeList`'s result and leaves the cursor where it says |
| Decoder.JsonDecompressor.DecompressData | compressor/decompressor.py:46-61 | dispatching on the tag returns `DecodeValue`'s result, with every stream error propagated |
| RoundTrip.EncodeSucceedsIff | compressor/compressor.py:50-61 | the encoder ends without an error if and only if every integer and count is in 0..255, every string and key has at most 255 bytes, and every key is a string |
| RoundTrip.ItemsSucceedIff | compressor/compressor.py:46-47 | the list loop ends without an error if and only if every element is accepted |
| RoundTrip.EntrySucceedsIff | compressor/compressor.py:28-32 | one item is written without an error if and only if its key is a string of at most 255 bytes and its value is accepted |
| RoundTrip.EntriesSucceedIff | compressor/compressor.py:28-32 | the dict loop ends without an error if and only if every item is accepted |
| RoundTrip.IntegerAt | compressor/decompressor.py:20-21 | an INTEGER tag followed by a byte decodes to that byte as an integer, two bytes on |
| RoundTrip.StringAt | compressor/decompressor.py:17-18 | a STRING tag followed by a string field decodes to that string |
| RoundTrip.ListAt | compressor/decompressor.py:36-44 | a LIST tag, a count and that many decoded values decode to the list of them |
| RoundTrip.ObjectAt | compressor/decompressor.py:26-34 | an OBJECT tag, a count and that many decoded items decode to the dict of them |
| RoundTrip.DecodeEncoded | compressor/decompressor.py:46-61 | bytes the encoder wrote without error, for a tree whose dicts have distinct keys, decode to that tree with its booleans as integers, ending exactly after them |
| RoundTrip.DecodeEncodedInt | compressor/decompressor.py:20-21 | an encoded integer reads back as itself |
| RoundTrip.DecodeEncodedString | compressor/decompressor.py:17-18 | an encoded string reads back as itself |
| RoundTrip.DecodeEncodedList | compressor/decompressor.py:36-44 | an encoded list reads back element by element, with booleans as integers |
| RoundTrip.DecodeEncodedObject | compressor/decompressor.py:26-34 | an encoded dict reads back item by item, in the same order, with booleans as integers |
| RoundTrip.DecodeEncodedItems | compressor/decompressor.py:42-43 | the list loop appends each encoded element, decoded, to what it has built |
| RoundTrip.DecodeEncodedEntry | compressor/decompressor.py:31-32 | one encoded item: its key string reads back as written, then its value, ending just past the item |
| RoundTrip.DecodeEncodedEntries | compressor/decompressor.py:30-33 | with keys that differ from one another and from those already built, every assignment appends, so the dict comes back in the encoder's order |
| RoundTrip.RoundTrip | compressor/decompressor.py:14-15 | for an accepted tree whose dicts have distinct keys, `decompress(compress(v))` is `v` with booleans as integers, and it reads exactly the compressed bytes, whatever follows them |
| RoundTrip.RoundTripExact | compressor/decompressor.py:14-15 | a tree without booleans comes back exactly |
| RoundTrip.EncodeIgnoresBools | compressor/compressor.py:57-58 | a tree and the same tree with its booleans turned into integers encode identically |
| RoundTrip.ReencodeDecoded | compressor/compressor.py:17-18 | compressing what the decompressor returned gives back the same bytes |
| RoundTrip.CompressThenDecompress | example.py:6-15 | a compressor, its buffer and a decompressor over that buffer, used in turn: the buffer handed over is exactly `Encode(v)`'s bytes, and the decompressor returns `v` with booleans as integers |
| RoundTrip.ExampleDictCompresses | example.py:4 | `{"key1": 122}` compresses to [5, 1, 4, 'k', 'e', 'y', '1', 1, 122] |
| RoundTrip.ExampleTailCompresses | example.py:4 | `True, False, {"key1": 122}` compress to [1, 1, 1, 0] followed by the dict's bytes |
| RoundTrip.ExampleItemsCompress | example.py:4 | the five elements compress to "Item1" as [2, 5, ...], then [1, 64], then the rest |
| RoundTrip.ExampleCompresses | example.py:4-10 | the example tree compresses without error to 24 bytes, starting [4, 5] |
| RoundTrip.ExampleWithoutBools | example.py:4 | the example tree with booleans as integers has 1 and 0 in place of `True` and `False` |
| RoundTrip.ExampleDecompresses | example.py:14-15 | the example's bytes decompress to `["Item1", 64, 1, 0, {"key1": 122}]` |

## Left out

- JSON text parsing (`json.loads` in `JsonCompressor.__init__`, compressor/compressor.py:9-12) is a foreign library. The model takes an already-built value tree.
- The `print` of the dict size in `_decompress_object` (compressor/decompressor.py:29) is console output and is not modelled.
- Text encoding: strings are modelled as their bytes. The length byte is `len(string)`, a count of characters, while the payload is the UTF-8 bytes. These agree only for ASCII text, and the model is faithful for ASCII text only. Non-ASCII text, UTF-8 decoding in `read_string` and its decoding errors, and the `str` argument of `BinaryStream.__init__` are not modelled.
- Bytes.BinaryStream.constructor: every stream owns its buffer. In the source, `BinaryStream()` without an argument shares one mutable default `bytearray` among all such streams, so a second compressor would append to the first one's buffer. That aliasing is not modelled.
- Encoder.JsonCompressor.constructor: the new compressor's stream is always empty. In the source, `JsonCompressor` builds its stream with `BinaryStream()` (compressor/compressor.py:15), whose default `bytearray()` (compressor/binary_stream.py:6) is created once and shared. A second compressor in the same process therefore starts with the first one's bytes, and its output carries them as a prefix. The model does not capture this.
- The `_write_offset` field (compressor/binary_stream.py:11) is never read and is not modelled.
- Encoder.JsonCompressor.Compress: the compressor methods do not state where the stream's read cursor ends up. `write_byte` moves it, but nothing in the compressor reads it.
- Values of other runtime kinds (float, None) fall through `_compress_data` without writing or raising. The closed `Value` type cannot hold them. For the same reason, the `_push_type` guard cannot fire.
- The return values of `compress` and `_compress_list` are `None` or a list of `None`s. They carry nothing and are not modelled; the output is the buffer.
- compressor/__init__.py only re-exports the classes. The `exceptions` module is not part of this model; its BinaryStreamError appears as one of the `Error` values.
- Python's recursion limit on deeply nested trees is not modelled: recursion is unbounded here.
