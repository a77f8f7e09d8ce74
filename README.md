# karl: value tree, `json` handle and CBOR codec in Dafny

karl is a C++ JSON library. A document is a tree of reference-counted
`json_value` nodes. There are six node classes: null, boolean, number,
string, array and object. A `json` handle is what user code holds.

- A **root** handle owns a node, or nothing.
- A **location** names a container node plus an index or a key. `operator[]`
  creates locations, and they can nest.

Assigning through a location writes into the container, creating it when
the slot is empty. `push_back` and `operator=(const json&)` store the
argument's node itself, so several slots can share one node. An iterator
walks the slots of an array, or visits a single non-array value once.

Trees convert to and from CBOR (RFC 7049):

- the writer encodes each class with the shortest argument in big-endian
  order;
- the reader classifies each lead byte through a 255-entry type table;
- definite and indefinite (break-terminated) strings, arrays and maps are
  decoded.

The model has three layers:

- **Values.** `JsonValue.Value` is the tree as data, with the compact
  `dump()`. An absent slot (a null `shared_ptr`) is `None`.
  `ValueCbor.Encode` is the CBOR encoding the `to_cbor` methods produce.
  `CborDecode` is the reader as pure functions over a byte sequence. Each
  function returns the decoded value, or failure, together with the
  position the reader reached.
- **Nodes and handles.** `JsonNodes.Node` is a node class whose fields the
  operations update in place. `JsonNodes.ValueOf` reads the value a node
  denotes through a footprint and a depth bound. `JsonHandle.Json` and
  `JsonHandle.JsonIterator` are the handle and its iterator as classes.
  Their methods are proved against the node fields and, where a value is
  observed, against `ValueOf`.
- **Codec machinery.** `CborWriter.Writer` is the growing output buffer.
  `CborReader.Reader` is the byte reader with its position. Each reader
  method is proved equal to the corresponding `CborDecode` function.

The central theorem is `CborRoundTrip.ValueRoundTrip`. It states that
decoding the encoding of any well-formed value returns that value, with
absent slots read back as null nodes, after consuming exactly the encoding.

`Scenarios` restates as methods over handles, with the expected results proved,
these test programs of example/main.cc: `test_json_array`, `test_json_object`,
`test_json_arry_push_back`, `test_json_obj_assignment`,
`test_json_multi_layer_assignment`, `test_json_const_iterator`,
`test_json_reference_iterator`, `test_json_initializer_list_construct`,
`test_json_initializer_list_vector_construct`, `test_json_object_deep_copy`
and `test_json_cbor`. `test_json_object_deep_copy` starts from a JSON text
parsed by cJSON, which is not modelled. The model starts that scenario from
any root array. The other tests are listed under "Left out".

Key order:

- Object order follows a C++ `unordered_map` and is unspecified.
- The model enumerates keys in ascending lexicographic order
  (`KeyOrder.KeysInOrder`).
- The lemmas only rely on each key appearing once.

Behaviour of the code that is modelled as written:

- At its `__exit` label, `parse_into_arbitrary_json_object` stores
  `rder.current_position()` as the transferred byte count, on failure as on
  success, so a failed decode reports the position the reader reached.
- A definite array or object count of 2^64 - 1 equals the reader's
  `INDEFINITE_LENGTH` marker, so it is read as indefinite.
- An indefinite-length string stops at its break byte without consuming
  it. An indefinite string on its own therefore decodes, with the break
  left over. Inside an indefinite array the leftover break is taken as the
  array's own break, so the array ends early and still decodes. A definite
  array whose last element is such a string also decodes, before the break
  (`CborDecode.IndefiniteStringLeavesBreak`). When another element follows
  the string in a definite array, the break is read as that element's lead
  byte (`CborDecode.BreakBeforeNextElement`).
- A negative integer with lead byte 0x3B and an argument of 2^63 or more
  wraps around in `int64_t`. The model computes that wrapped value.

## Model

| member | source | states |
|---|---|---|
| Base.BytesTextInverse | src/cbor.cc:254-256 | the bytes written for a string, read back as characters, are that string |
| Base.ToUint64 | src/karl.cc:188 | an integer's 64-bit pattern is the unique value in [0, 2^64) congruent to it modulo 2^64 |
| Base.WrapInt64 | src/cbor.cc:771-814 | a 64-bit pattern read as `int64_t` lies in the int64 range and has that pattern |
| BigEndian.EncodeNumber | src/cbor.h:39-47 | `encode_number` of a value below 256^w gives w bytes, least significant last |
| BigEndian.DecodeBE | src/cbor.h:158-174 | the bytes `decode_number` assembles denote a value below 256^width |
| BigEndian.DecodeEncode | src/cbor.h:39-47 | decoding the big-endian bytes of x gives x back |
| BigEndian.EncodeDecode | src/cbor.h:158-174 | re-encoding decoded bytes at their width gives the same bytes |
| BigEndian.MostSignificantFirst | src/cbor.h:43-45 | the first byte written is the most significant one |
| BigEndian.AllOnes | src/cbor.h:158-174 | w bytes of 0xFF decode to 256^w - 1 |
| CborBuild.AddInfo | src/cbor.cc:198-217 | an argument up to 23 is embedded; otherwise the narrowest width of 1, 2, 4 or 8 bytes that holds it is chosen |
| CborBuild.Head | src/cbor.cc:261-280 | a head is the lead byte base + additional info followed by argument bytes that decode to n |
| CborBuild.BuildBoolean | src/cbor.cc:142-147 | a boolean is one byte, 0xF5 exactly when true and 0xF4 exactly when false |
| CborBuild.BuildNumberUnsigned | src/cbor.cc:198-217 | an unsigned number is a major type 0 head of its own length class |
| CborBuild.UnsignedLayout | src/cbor.cc:198-217 | each of the five value ranges produces the documented byte layout (embedded, 0x18, 0x19, 0x1A, 0x1B then the argument) |
| CborBuild.BuildNumberSigned | src/cbor.cc:149-196 | a non-negative int64 is encoded as the unsigned number; a negative one as a major type 1 head whose argument is -1 - v |
| CborBuild.NegativeLayout | src/cbor.cc:176-194 | from -1 to -24 a negative number is the single byte 0x20 + (-1 - v); below that it is 0x38-0x3B then the argument -1 - v |
| CborBuild.BuildString | src/cbor.cc:231-259 | a string is a major type 3 head of its length followed by exactly its bytes |
| CborBuild.BuildArrayPrefix | src/cbor.cc:261-280 | an array prefix is a major type 4 head of the element count |
| CborBuild.BuildObjectPrefix | src/cbor.cc:282-300 | an object prefix is a major type 5 head of the pair count |
| CborTable.ClassifyRanges | src/cbor.cc:317-357 | the lead byte ranges of major types 0 to 5 classify as those types |
| CborTable.KnownLeadBytes | src/cbor.cc:317-357 | a lead byte has a known type exactly when it is in one of the filled ranges, is an indefinite marker, or is a simple or float code |
| CborTable.TypeTable.constructor | src/cbor.cc:317-357 | the constructed table classifies every byte as `Classify` does |
| CborTable.TypeTable.Get | src/cbor.cc:310-312 | a table lookup is the classification of the byte |
| CborTable.Fill | src/cbor.cc:320-322 | filling a range sets exactly the entries from lo to hi and leaves the others |
| CborWriter.Capacity | src/cbor.cc:128-134 | the grown buffer size is a multiple of 512 that holds what is needed |
| CborWriter.CapacitySmallest | src/cbor.cc:128-134 | it is the smallest such multiple |
| CborWriter.Writer.constructor | src/cbor.h:83 | a new writer has written nothing |
| CborWriter.Writer.CheckSpace | src/cbor.cc:128-134 | after the call there is room for the addition; the buffer grows only when too small, and keeps its written prefix |
| CborWriter.Writer.WriteCharacter | src/cbor.cc:101-104 | the written bytes gain b at the end |
| CborWriter.Writer.WriteCharacters | src/cbor.cc:106-110 | the written bytes gain the given bytes at the end |
| CborWriter.Writer.AppendCborBinary | src/cbor.cc:117-126 | the written bytes gain the given bytes at the end |
| CborWriter.Writer.WriteNumber | src/cbor.h:86-89 | the written bytes gain the big-endian encoding of the number |
| CborWriter.Writer.Binary | src/cbor.cc:112-115 | the result is exactly what was written, and the buffer is cut to it |
| CborDecode.ReadCharacter | src/cbor.cc:507-513 | reading a byte succeeds exactly before the end, returns that byte and advances by one |
| CborDecode.NextType | src/cbor.cc:365-373 | peeking gives a type exactly when a byte remains and it classifies as known |
| CborDecode.SkipCharacter | src/cbor.cc:375-381 | skipping succeeds and advances exactly before the end |
| CborDecode.DecodeNumber | src/cbor.h:158-174 | a w-byte argument decodes exactly when w bytes remain; a short read stops at the end |
| CborDecode.ReadUnsigned | src/cbor.cc:726-769 | an unsigned number is a uint64; a lead byte above 0x1B fails after one byte |
| CborDecode.ReadNegative | src/cbor.cc:771-814 | a negative number is an int64; a lead byte outside 0x20-0x3B fails after one byte |
| CborDecode.ReadStringLen | src/cbor.cc:515-524 | a string body of length len is read exactly when len bytes remain, and gives those bytes |
| CborDecode.ReadString | src/cbor.cc:387-424 | a lead byte that is not a string code fails after one byte |
| CborDecode.StringLead | src/cbor.cc:387-424 | embedded lengths, 1/2/4/8-byte lengths, the indefinite marker and other bytes each take their own branch |
| CborDecode.Chunks | src/cbor.cc:413-422 | an indefinite string that decodes stops at its break byte without consuming it |
| CborDecode.ReadSize | src/cbor.cc:526-621 | a container size is a uint64; the indefinite marker gives `INDEFINITE_LENGTH` after one byte; other lead bytes fail after one byte |
| CborDecode.ReadArraySize | src/cbor.cc:526-572 | at the end of the buffer it fails without moving; 0x80-0x97 give the count b - 0x80 after one byte; 0x98-0x9B give the big-endian count of the next 1, 2, 4 or 8 bytes, failing at the end of a short buffer; 0x9F gives `INDEFINITE_LENGTH`; any other byte fails after itself |
| CborDecode.ReadObjectSize | src/cbor.cc:574-621 | the same cases on 0xA0-0xB7, 0xB8-0xBB and 0xBF: an embedded count, a 1/2/4/8-byte big-endian count, `INDEFINITE_LENGTH`; any other byte fails after itself |
| CborDecode.ReadSimple | src/cbor.cc:702-724 | `read_false` / `read_true` / `read_null` consume one byte and succeed exactly when it is the expected code |
| CborDecode.ReadItem | src/cbor.cc:623-700 | a decoded item always consumes at least one byte and stays within the buffer |
| CborDecode.ParseValue | src/cbor.cc:623-700 | on failure the reader's position does not move |
| CborDecode.ItemUnsigned | src/cbor.cc:631-639 | an unsigned lead byte decodes as an unsigned number node |
| CborDecode.ItemNegative | src/cbor.cc:640-648 | a negative lead byte decodes as a signed number node |
| CborDecode.ItemString | src/cbor.cc:649-657 | a definite string lead byte decodes as a string node |
| CborDecode.ItemArray | src/cbor.cc:658-666 | an array lead byte decodes by `read_array` |
| CborDecode.ItemObject | src/cbor.cc:667-675 | an object lead byte decodes by `read_object` |
| CborDecode.ItemSimple | src/cbor.cc:676-687 | 0xF4, 0xF5 and 0xF6 decode as false, true and null after one byte |
| CborDecode.ReadArray | src/cbor.cc:426-456 | a decoded array is an array node and consumes its head |
| CborDecode.ArrayDefinite | src/cbor.cc:443-454 | a definite array keeps its elements in order and has exactly the declared count |
| CborDecode.ArrayIndefinite | src/cbor.cc:432-442 | an indefinite array keeps its elements in order and ends by consuming a break byte |
| CborDecode.ReadObject | src/cbor.cc:458-497 | a decoded object is an object node and consumes its head |
| CborDecode.ObjectDefinite | src/cbor.cc:481-495 | decoding pairs keeps every key already set |
| CborDecode.ObjectIndefinite | src/cbor.cc:465-480 | an indefinite object keeps every key already set and ends by consuming a break byte |
| CborDecode.ReadPair | src/cbor.cc:483-493 | a pair is a key string then a value, read forward |
| CborDecode.ParseArbitrary | src/cbor.cc:881-965 | empty input decodes nothing at position 0; a success consumes at least one byte |
| CborDecode.LengthCheckAgrees | src/cbor.cc:515-518 | when position plus length does not wrap, the bound as written and the intended one agree |
| CborDecode.LengthCheckWraps | src/cbor.cc:515-518 | the bound as written lets a length of 2^64 - 1 through; the intended bound rejects it |
| CborDecode.IndefiniteStringLeavesBreak | src/cbor.cc:413-454 | `7F 61 61 FF` decodes as "a" after 3 of 4 bytes; `9F 7F 61 61 FF FF` decodes as ["a"] after 5 of 6 bytes, the string's break ending the array; `81 7F 61 61 FF` decodes as ["a"] after 4 bytes |
| CborDecode.BreakBeforeNextElement | src/cbor.cc:413-454 | in `82 7F FF 01` the string's left-over break is read as the second element's lead byte, which the model classifies as Unknown, so decoding fails |
| KeyOrder.SortedKeys | src/karl.h:210 | the keys of a set enumerated once each, in strictly ascending order |
| KeyOrder.KeysInOrder | src/karl.cc:466-480 | an object enumerates exactly its keys |
| KeyOrder.KeysDistinct | src/karl.cc:466-480 | no key is enumerated twice |
| KeyOrder.EntryList | src/karl.cc:527-540 | the enumerated pairs are the object's entries |
| KeyOrder.EntryListKeys | src/karl.cc:527-540 | the pairs' keys are the enumerated keys, and a key is in the object exactly when it is enumerated |
| JsonValue.FromSigned | src/karl.cc:224-229 | `set_value(int64_t)` stores the value and marks it signed exactly when it is negative |
| JsonValue.FromUnsigned | src/karl.cc:230-235 | `set_value(uint64_t)` stores the value as unsigned |
| JsonValue.AsUint64 | src/karl.cc:188 | reading a number as uint64 gives it unchanged if unsigned, and plus 2^64 if negative |
| JsonValue.TypeOf | src/karl.h:35-44 | each node class reports its own type, and different classes report different types |
| JsonValue.Normalize | src/karl.cc:411-424 | replacing absent slots by null nodes keeps the type and well-formedness and leaves no absent slot |
| JsonValue.NormalizeComplete | src/karl.cc:411-424 | a tree without absent slots is unchanged |
| JsonValue.NatDigits | src/karl.cc:192-201 | the decimal text of a number is digits with no leading zero |
| JsonValue.IntToStringRoundTrip | src/karl.cc:192-201 | the text a number dumps as denotes that number |
| JsonValue.JoinSnoc | src/karl.cc:350-364 | one more part is written after a comma, except as the first part: commas go only between consecutive items |
| JsonValue.DumpSingleSlot | src/karl.cc:350-364 | a one-slot array dumps as brackets around that slot's dump, `null` for an absent slot |
| JsonValue.DumpAppendSlot | src/karl.cc:350-364 | appending a slot to a non-empty array changes its dump by replacing the closing bracket with a comma, the new slot's dump and the bracket |
| JsonValue.DumpSingleEntry | src/karl.cc:466-480 | a one-entry object dumps as `{"key":` followed by the value's dump and `}` |
| JsonValue.DumpNormalize | src/karl.cc:350-364 | replacing absent slots by null nodes does not change the dump |
| JsonValue.DumpNormalizeItems | src/karl.cc:350-364 | the same, for an array |
| JsonValue.DumpNormalizeEntries | src/karl.cc:466-480 | the same, for an object |
| ValueCbor.EncodeLeadByte | src/karl.cc:411-424 | the first byte of any node's encoding classifies as that node's major type |
| ValueCbor.ObjectLeadByte | src/karl.cc:527-540 | an object's encoding starts with an object lead byte |
| ValueCbor.ScalarLeadByte | src/karl.cc:214-222 | a scalar's encoding starts with the lead byte of its type |
| ValueCbor.ArrayEncoding | src/karl.cc:411-424 | an array encodes as its prefix followed by each slot's encoding in order |
| ValueCbor.ObjectEncoding | src/karl.cc:527-540 | an object encodes as its prefix followed by each key string and value in enumeration order |
| ValueCbor.EncodeItemsConcat | src/karl.cc:411-424 | the encoding of the slots splits at any index into the encodings of the two parts |
| CborRoundTrip.DecodeNumberRoundTrip | src/cbor.h:158-174 | `decode_number` reads back what `encode_number` wrote |
| CborRoundTrip.DecodeNumberShort | src/cbor.h:158-174 | without enough bytes `decode_number` fails at the end of the buffer |
| CborRoundTrip.HeadRoundTrip | src/cbor.cc:726-769 | a written head's lead byte and argument read back as written |
| CborRoundTrip.UnsignedRoundTrip | src/cbor.cc:726-769 | `read_unsigned_number` reads back what `build_number_usigned` wrote |
| CborRoundTrip.NegativeRoundTrip | src/cbor.cc:771-814 | `read_negative_number` reads back what `build_number_signed` wrote for a negative number |
| CborRoundTrip.ReadNegativeEmbedded | src/cbor.cc:771-814 | an embedded negative lead byte b reads as 0x1F - b |
| CborRoundTrip.StringRoundTrip | src/cbor.cc:387-424 | `read_string` reads back what `build_string` wrote |
| CborRoundTrip.ArraySizeRoundTrip | src/cbor.cc:526-572 | `read_array_size` reads back the count `build_array_prefix` wrote |
| CborRoundTrip.ObjectSizeRoundTrip | src/cbor.cc:574-621 | `read_object_size` reads back the count `build_object_prefix` wrote |
| CborRoundTrip.IndefiniteSize | src/cbor.cc:526-621 | 0x9F and 0xBF read as the indefinite-length marker |
| CborRoundTrip.NullRoundTrip | src/cbor.cc:138-140 | the byte `build_null` writes is accepted by `read_null` and decodes as a null node after exactly one byte, whatever follows |
| CborRoundTrip.ItemRoundTrip | src/cbor.cc:623-700 | any encoded value decodes as itself, with absent slots as null nodes, consuming exactly its encoding |
| CborRoundTrip.SlotRoundTrip | src/karl.cc:411-424 | an encoded slot decodes as its value, an absent slot as null |
| CborRoundTrip.ArrayRoundTrip | src/cbor.cc:426-456 | an encoded array decodes as its normalised value |
| CborRoundTrip.ObjectRoundTrip | src/cbor.cc:458-497 | an encoded object decodes as its normalised value |
| CborRoundTrip.ValueRoundTrip | src/cbor.cc:881-965 | decoding an encoding followed by any bytes gives the normalised value and transfers exactly the encoding's length |
| CborRoundTrip.ValueRoundTripComplete | src/cbor.cc:881-965 | a tree without absent slots decodes as itself |
| CborReader.Reader.constructor | src/cbor.cc:362-363 | a reader starts at position 0 of its buffer |
| CborReader.Reader.Sub | src/cbor.cc:624 | a sub-reader starts at position 0 of the rest of the buffer |
| CborReader.Reader.CurrentPosition | src/cbor.cc:383-385 | the position counts from the reader's own start |
| CborReader.Reader.GetNextCharacter | src/cbor.cc:499-505 | peeking gives the next byte exactly when one remains |
| CborReader.Reader.ReadNextType | src/cbor.cc:365-373 | the next type is the table's classification of the next byte |
| CborReader.Reader.ReadCharacter | src/cbor.cc:507-513 | equals `CborDecode.ReadCharacter`, value and new position |
| CborReader.Reader.SkipACharacter | src/cbor.cc:375-381 | equals `CborDecode.SkipCharacter` |
| CborReader.Reader.DecodeNumber | src/cbor.h:158-174 | equals `CborDecode.DecodeNumber` |
| CborReader.Reader.ReadUnsignedNumber | src/cbor.cc:726-769 | equals `CborDecode.ReadUnsigned` |
| CborReader.Reader.ReadNegativeNumber | src/cbor.cc:771-814 | equals `CborDecode.ReadNegative` |
| CborReader.Reader.ReadStringOfLength | src/cbor.cc:515-524 | equals `CborDecode.ReadStringLen` |
| CborReader.Reader.ReadString | src/cbor.cc:387-424 | equals `CborDecode.ReadString` |
| CborReader.Reader.ReadChunks | src/cbor.cc:413-422 | the chunk loop equals `CborDecode.Chunks` |
| CborReader.Reader.ReadArraySize | src/cbor.cc:526-572 | equals `CborDecode.ReadArraySize` |
| CborReader.Reader.ReadObjectSize | src/cbor.cc:574-621 | equals `CborDecode.ReadObjectSize` |
| CborReader.Reader.ReadFalse | src/cbor.cc:702-708 | equals `CborDecode.ReadSimple` for 0xF4 |
| CborReader.Reader.ReadTrue | src/cbor.cc:710-716 | equals `CborDecode.ReadSimple` for 0xF5 |
| CborReader.Reader.ReadNull | src/cbor.cc:718-724 | equals `CborDecode.ReadSimple` for 0xF6 |
| CborReader.Reader.ParseIntoJsonValue | src/cbor.cc:623-700 | the result is `CborDecode.ParseValue`; position plus transferred bytes reach its end; on failure nothing moves |
| CborReader.Reader.ReadArray | src/cbor.cc:426-456 | equals `CborDecode.ReadArray` |
| CborReader.Reader.ReadItemsUntilBreak | src/cbor.cc:432-442 | the indefinite loop equals `CborDecode.ArrayIndefinite` |
| CborReader.Reader.ReadItems | src/cbor.cc:443-454 | the counted loop equals `CborDecode.ArrayDefinite` |
| CborReader.Reader.ReadObject | src/cbor.cc:458-497 | equals `CborDecode.ReadObject` |
| CborReader.Reader.ReadEntriesUntilBreak | src/cbor.cc:465-480 | the indefinite loop equals `CborDecode.ObjectIndefinite` |
| CborReader.Reader.ReadEntries | src/cbor.cc:481-495 | the counted loop equals `CborDecode.ObjectDefinite` |
| CborReader.ParseIntoArbitraryJsonObject | src/cbor.cc:881-965 | the result and transferred bytes equal `CborDecode.ParseArbitrary` |
| JsonNodes.Node.NullNode | src/karl.h:48 | a new null node |
| JsonNodes.Node.BooleanNode | src/karl.h:62 | a new boolean node holding b |
| JsonNodes.Node.NumberNode | src/karl.cc:120-121 | a new number node holding n |
| JsonNodes.Node.StringNode | src/karl.cc:255 | a new string node holding s |
| JsonNodes.Node.ArrayNode | src/karl.h:177 | a new empty array |
| JsonNodes.Node.ObjectNode | src/karl.h:213 | a new empty object |
| JsonNodes.Node.SetFlag | src/karl.cc:62-64 | the flag becomes b and nothing else changes |
| JsonNodes.Node.SetNumber | src/karl.cc:123-129 | the number becomes n and nothing else changes |
| JsonNodes.Node.SetSigned | src/karl.cc:224-229 | the number becomes the signed reading of v and nothing else changes |
| JsonNodes.Node.SetUnsigned | src/karl.cc:230-235 | the number becomes the unsigned v and nothing else changes |
| JsonNodes.Node.SetText | src/karl.cc:277-280 | the text becomes s and nothing else changes |
| JsonNodes.Node.GetAt | src/karl.cc:284-289 | the slot at i, or null past the end |
| JsonNodes.Node.SetAt | src/karl.cc:291-297 | the slot at i becomes e, growing the array with absent slots when i is past the end; always succeeds |
| JsonNodes.Node.SlotAt | src/karl.cc:299-304 | `operator[]` grows the array to hold index i and returns what was there |
| JsonNodes.Node.Insert | src/karl.cc:310-318 | e goes in at i, later slots shift up, and an index past the end pads first |
| JsonNodes.Node.Append | src/karl.cc:320-322 | e is added at the end |
| JsonNodes.Node.Resize | src/karl.cc:324-326 | the array gets length n, keeping its prefix and padding with absent slots |
| JsonNodes.Node.ClearItems | src/karl.cc:328-330 | the array becomes empty |
| JsonNodes.Node.ItemCount | src/karl.cc:332-334 | the number of slots |
| JsonNodes.Node.EraseAt | src/karl.cc:336-340 | the slot at i is removed and later ones shift down; an index past the end changes nothing |
| JsonNodes.Node.HasKey | src/karl.cc:426-432 | true exactly when the key is present |
| JsonNodes.Node.GetValue | src/karl.cc:434-440 | the entry for the key, or null when absent |
| JsonNodes.Node.SetValue | src/karl.cc:442-444 | the key maps to e, the other entries are kept |
| JsonNodes.Node.EraseKey | src/karl.cc:458-460 | the key is removed, the other entries are kept |
| JsonNodes.Node.ClearEntries | src/karl.cc:446-448 | the object becomes empty |
| JsonNodes.Node.EntryCount | src/karl.cc:462-464 | the number of entries |
| JsonNodes.Resized | src/karl.cc:324-326 | resizing gives length n with the old slots in place and absent slots after |
| JsonNodes.Placed | src/karl.cc:291-297 | placing sets slot i to e, keeps every other slot, and extends to i + 1 when needed |
| JsonNodes.Inserted | src/karl.cc:310-318 | inserting puts e at i, keeps earlier slots and shifts later ones up |
| JsonNodes.Erased | src/karl.cc:336-340 | erasing removes slot i and shifts the later ones down, and leaves the array alone past its end |
| JsonNodes.PlacedGet | src/karl.cc:291-297 | reading after placing gives e at i and the old slot elsewhere |
| JsonNodes.PlacedSame | src/karl.cc:291-297 | placing a slot's own value back changes nothing |
| JsonNodes.InsertedGet | src/karl.cc:310-318 | reading after inserting: earlier slots as before, e at i, later slots shifted |
| JsonNodes.EraseInserted | src/karl.cc:310-340 | erasing at the index just inserted at restores the array |
| JsonNodes.ErasedGet | src/karl.cc:336-340 | reading after erasing at i gives the slot one further at and after i |
| JsonNodes.ValueOf | src/karl.h:35-44 | the value a node denotes has the node's type |
| JsonNodes.EmptyValue | src/karl.h:165-229 | `empty()` holds exactly for an empty string, array or object value |
| NodeWalks.Copy | src/karl.cc:398-409 | `copy()` builds fresh nodes, disjoint from the original, that denote the same value |
| NodeWalks.CopyArray | src/karl.cc:398-409 | an array's copy denotes the same value, with fresh nodes |
| NodeWalks.CopyObject | src/karl.cc:513-525 | an object's copy denotes the same value, with fresh nodes |
| NodeWalks.BuildNode | src/cbor.cc:637-694 | decoded values become fresh nodes that denote them |
| NodeWalks.BuildArray | src/cbor.cc:431-454 | a decoded array becomes a fresh array node that denotes it |
| NodeWalks.BuildObject | src/cbor.cc:464-495 | a decoded object becomes a fresh object node that denotes it |
| NodeWalks.ToCbor | src/karl.cc:214-222 | `to_cbor()` of any node writes the encoding of the value it denotes |
| NodeWalks.ArrayToCbor | src/karl.cc:411-424 | an array node writes the encoding of its value |
| NodeWalks.ObjectToCbor | src/karl.cc:527-540 | an object node writes the encoding of its value |
| NodeWalks.WriteArray | src/karl.cc:411-424 | the array's prefix and slots, written into a fresh writer, are its encoding |
| NodeWalks.WriteObject | src/karl.cc:527-540 | the object's prefix and pairs, written into a fresh writer, are its encoding |
| NodeDump.DumpNode | src/karl.cc:192-201 | `dump()` of any node is the dump of the value it denotes |
| NodeDump.DumpArray | src/karl.cc:350-364 | an array node's dump is the dump of its value |
| NodeDump.DumpObject | src/karl.cc:466-480 | an object node's dump is the dump of its value |
| JsonHandle.Json.constructor | src/karl.cc:895 | an empty root handle |
| JsonHandle.Json.Of | src/karl.cc:892-893 | a root handle on the given node |
| JsonHandle.Json.Share | src/karl.cc:897-901 | a copied handle names the same container, index and key |
| JsonHandle.Json.Current | src/karl.cc:1309-1322 | the current value is absent exactly when no node is current, and has the current node's type |
| JsonHandle.Json.FillCurrentValue | src/karl.cc:1368-1385 | obj is stored where the handle points (the root, the slot or the key) and becomes current |
| JsonHandle.Json.Index | src/karl.cc:1007-1037 | fails exactly on a root holding a non-null non-array; otherwise gives a location at index i, turning an empty or null root into a fresh empty array |
| JsonHandle.Json.Key | src/karl.cc:1039-1069 | fails exactly on a root holding a non-null non-object; otherwise gives a location at the key, turning an empty or null root into a fresh empty object |
| JsonHandle.Json.IndexConst | src/karl.cc:1071-1082 | succeeds exactly on an array, with a location at index i; otherwise a type error |
| JsonHandle.Json.KeyConst | src/karl.cc:1084-1095 | succeeds exactly on an object, with a location at the key; otherwise a type error |
| JsonHandle.Json.Assign | src/karl.cc:1119-1235 | the current node holds the scalar; a node of the same type is updated in place, any other is replaced by a fresh node stored where the handle points, and the replaced node itself is left untouched |
| JsonHandle.Json.AssignChars | include/karl/json.hxx:316-318 | a `const char*` assigns its string, a null pointer the empty string, with the same in-place, fresh-node and untouched-old-node outcomes as Assign |
| JsonHandle.Json.AssignHandle | src/karl.cc:912-916 | stores the other handle's current node itself, shared, where this handle points |
| JsonHandle.Json.PushBack | src/karl.cc:1237-1292 | a type error exactly on a root holding a non-null non-array; otherwise the argument's node is appended to the current array, created fresh when there was none |
| JsonHandle.Json.EmplaceBack | include/karl/json.hxx:301-303 | emplace_back has push_back's outcome: the same type error, and otherwise the argument's node appended to the current array |
| JsonHandle.Json.Clear | src/karl.cc:1097-1102 | the handle becomes an empty root |
| JsonHandle.Json.Size | src/karl.cc:1104-1117 | the slot count of an array, the entry count of an object, and 0 otherwise |
| JsonHandle.Json.HasKey | src/karl.cc:982-989 | true exactly on an object holding the key |
| JsonHandle.Json.EraseKey | src/karl.cc:991-997 | removes the key from a current object and keeps its other entries; changes nothing otherwise |
| JsonHandle.Json.EraseAt | src/karl.cc:999-1005 | erases index i of a current array; changes nothing otherwise |
| JsonHandle.Json.GetText | include/karl/json.hxx:378-380 | the string of a string node; a type error on anything else |
| JsonHandle.Json.GetBool | include/karl/json.hxx:382-384 | the flag of a boolean node; a type error on anything else |
| JsonHandle.Json.GetInteger | include/karl/json.hxx:329-336 | a number node read as uint64 and cast to the requested integer type; a type error on anything else |
| JsonHandle.Json.GetAs | include/karl/json.hxx:329-336 | get<T>: an integer T succeeds exactly on a number node and gives its uint64 reading cast to T; std::string and bool succeed exactly on a string or boolean node; every other T is a type error |
| JsonHandle.Json.Dump | src/karl.cc:918-927 | the dump of the current value; nothing current dumps as `null` at a location and `{}` at a root |
| JsonHandle.Json.Empty | src/karl.cc:929-935 | true when nothing is current or the current node is empty |
| JsonHandle.Json.Copy | src/karl.cc:936-943 | a fresh root whose fresh nodes denote the same value |
| JsonHandle.Json.ToCbor | src/karl.cc:945-951 | the encoding of the current value, or no bytes when nothing is current |
| JsonHandle.Json.FromCbor | src/karl.cc:866-876 | empty input gives an empty root and no transfer count; otherwise the root holds the decoded value and the transfer count is the reader's final position |
| JsonHandle.Json.MakeArray | src/karl.cc:882-884 | a root on a fresh empty array |
| JsonHandle.Json.MakeObject | src/karl.cc:886-888 | a root on a fresh empty object |
| JsonHandle.Json.FromPairs | src/karl.cc:903-910 | the initializer-list constructor gives a root object holding the pairs, the last pair winning for a repeated key |
| JsonHandle.Json.FromVector | include/karl/json.hxx:343-353 | the vector constructor gives a root array of the elements in order |
| JsonHandle.Json.Begin | src/karl.cc:1387-1408 | nothing or an empty array begins at the end; a non-empty array at slot 0; any other value as a single element |
| JsonHandle.Json.End | src/karl.cc:1410-1412 | the end iterator |
| JsonHandle.CountsMatchValue | src/karl.cc:1104-1117 | the size and `has_key` the handle reports are those of the value it shows |
| JsonHandle.TypeQueries | src/karl.cc:953-980 | each `is_*` query holds exactly when the shown value has that type, with nothing current counting as null |
| JsonHandle.CastInteger | include/karl/json.hxx:329-336 | `static_cast` of a uint64 gives a value of the target integer type |
| JsonHandle.CastRoundTrip | include/karl/json.hxx:329-336 | a stored integer reads back unchanged through any integer type that can hold it |
| JsonHandle.ScalarSlots | src/karl.cc:637-647 | a vector becomes one present scalar slot per element, in order |
| JsonHandle.PairMapLast | src/karl.cc:903-910 | a key is in the object exactly when some pair has it, and it holds the last such pair's value |
| JsonHandle.ArrayOfScalars | src/karl.cc:637-647 | `key_value_pair` with a vector builds an array node of the elements |
| JsonHandle.NewItem | src/karl.cc:545-552 | a pair's value node denotes the pair's item, a null `const char*` giving a null node |
| JsonHandle.ObjectOfPairs | src/karl.cc:903-910 | setting each pair in turn gives an object node denoting the pairs' map |
| JsonHandle.JsonIterator.constructor | src/karl.cc:1416 | a new iterator is at the end |
| JsonHandle.JsonIterator.Share | src/karl.cc:1419-1431 | a copied iterator has the same handle, value and position |
| JsonHandle.JsonIterator.Deref | src/karl.cc:1433-1438 | dereferencing gives the iterator's handle, and fails on an end iterator |
| JsonHandle.JsonIterator.Equal | src/karl.cc:1447-1464 | equal when identical, both at the end, or on values of the same type at the same position; two array iterators are equal only over the same array node, since vector iterators into different buffers differ |
| JsonHandle.JsonIterator.NotEqual | include/karl/json.hxx:429-431 | `!=` is false exactly when the iterators are equal: identical, both at the end, or at the same position over values of the same type (over the same node for arrays) |
| JsonHandle.JsonIterator.Increment | src/karl.cc:1466-1480 | fails on an end iterator; in an array moves to the next slot and its handle's index, and reaches the end after the last slot or after a single value, leaving the handle's index alone |
| JsonHandle.JsonIterator.PostIncrement | include/karl/json.hxx:438-442 | returns a copy of the iterator as it was, sharing its handle, then increments: the iterator fails at the end, moves to the next slot with the shared handle's index (which the copy sees too), or reaches the end with the handle's index left alone |
| Scenarios.ArrayValueDump | example/main.cc:47-62 | the value `test_json_array` builds dumps as `[1,2,"ss"]` |
| Scenarios.ArrayByIndex | example/main.cc:47-62 | assigning slots 1, 2, 0 of an empty handle dumps as `[1,2,"ss"]` |
| Scenarios.ObjectByKey | example/main.cc:64-82 | each key reads back what was assigned to it |
| Scenarios.ObjAssignment | example/main.cc:162-189 | after `j["test"] = t`, j's entry is t's own node, `j["x"]` is null, `j["test"]["one"]` reads 2 and `j["test"]["w"]` reads "ok" |
| Scenarios.PushBackObject | example/main.cc:84-108 | after `push_back`, slot 0 is the pushed object's own node and reads back all three keys |
| Scenarios.NestedValueDump | example/main.cc:191-203 | the value `t[1]["one"] = 2` builds dumps as `[null,{"one":2}]` |
| Scenarios.Nested | example/main.cc:191-203 | `t[1]["one"] = 2` on an empty handle dumps as `[null,{"one":2}]` |
| Scenarios.PushBackShares | example/main.cc:220-224 | pushing the same handle three times stores the same node in three slots |
| Scenarios.RangeFor | example/main.cc:231-252 | a range-for visits exactly the array's slots in order, or a single value once, or nothing |
| Scenarios.ConstPeers | example/main.cc:209-218 | the set-up loop leaves j an array of three fresh objects, object i holding peer_id i and ms std::to_string(i + 10), and s1 the dump of the first one |
| Scenarios.PeersDenote | example/main.cc:209-218 | the array of the three peer objects denotes an array of three objects, object i mapping peer_id to i and ms to std::to_string(i + 10), and the first object denotes that array's first element |
| Scenarios.SharedDumps | example/main.cc:219-240 | `s2 = j.dump()` is the dump of what j denotes; after three `mj.push_back(j)`, every k of mj dumps as s2 and its `k[0]` as the dump of j's first element |
| Scenarios.DumpShared | example/main.cc:229-240 | the range-for over mj yields one td and one kd per slot: td the dump of the shared array's slot 0, kd the dump of the shared array |
| Scenarios.ReadPeers | example/main.cc:242-250 | the range-for over j reads `get<int>()` q from peer_id and ms std::to_string(q + 10) in slot q |
| Scenarios.ConstIterator | example/main.cc:205-261 | every check of the test holds: each td is s1, each kd is s2, and slot q reads peer_id q and ms std::to_string(q + 10), with s1 and s2 the dumps of the first peer and of the array |
| Scenarios.DeepCopy | example/main.cc:341-356 | after `bak = js.copy(); js[1] = 5`, `js[1]` reads 5 and `bak` still shows the original value |
| Scenarios.RewriteAll | example/main.cc:274-279 | the loop over `auto& k` writes through each handed-out location into the array's own nodes: slot i holds peer_id x0 + i, test false and ms "Helloworld", and the array keeps its nodes |
| Scenarios.ReadAll | example/main.cc:282-297 | reading every slot through the iterator gives peer_id x0 + i, ms "Helloworld" and test false, and changes nothing |
| Scenarios.ReferenceIterator | example/main.cc:263-306 | the second loop reads peer_id 101, 102 and 103, ms "Helloworld" and test false in the three slots |
| Scenarios.InitPairsMap | example/main.cc:308-323 | the initializer-list pairs give the expected map |
| Scenarios.InitializerList | example/main.cc:308-323 | `one` is null, `two` is true, `three` reads 10086 and `str` reads `World` |
| Scenarios.VectorOfInts | example/main.cc:325-338 | the vector handle is an array and slot 2 reads 3 |
| Scenarios.CborThroughHandle | example/main.cc:358-378 | `from_cbor(to_cbor())` gives a root showing the normalised value, transfers the whole encoding, and gives back the value itself when nothing is absent |

## Left out

- Floating point: `build_number_float`, `is_double_precision`, `read_float_number`, the float
  kind of `json_number`, `get<double>`/`get<float>`, `to_double` and the `double`/`float`
  overloads of `operator=`, `key_value_pair` and the vector constructor. Floating-point formats
  are outside the integer model. The type table still classifies the float lead bytes; decoding a
  float item is modelled as failure.
- `json::parse` (cJSON) and `internal_parse_array`/`internal_parse_object`: src/cJSON.c is not part of this model.
- The pretty `dump(indent, prefix)` overloads: layout-only text formatting. Only the compact `dump()` is modelled.
- Exception messages (`type_name`, `current_type`, `THROW_TYPE_ERROR` texts): errors become
  `Error` values: `TypeError`, `OtherError` (`std::out_of_range`-style misuse) or `InvalidIterator`.
- The `_index` cell that copies of a handle share is copied by value in `JsonHandle.Json.Share`.
  An iterator's increment therefore moves only its own handle's index.
- Object enumeration order: `std::unordered_map` order is unspecified. The model uses one fixed
  order, ascending keys.
- JsonHandle.Json.Index: at a location whose current node is present but not an array, the
  source casts to the wrong class. The model requires such a node to be absent or an array.
- JsonHandle.Json.Key: likewise, at a location the current node must be absent or an object.
- JsonHandle.Json.PushBack, JsonHandle.Json.EmplaceBack: likewise, at a location the current node must be absent or an array.
- `json::to_int64`: src/karl.cc:1352-1358 defines it, but include/karl/json.hxx does not declare it, so nothing can call it.
- Vectors of mixed scalar kinds: `JsonHandle.Json.FromVector` accepts any scalar sequence. C++ vectors are homogeneous, so that is a superset.
- A null `transfer_bytes` pointer: the model always returns the count.
- Break loops: `read_string`, `read_array` and `read_object` test `_buff[_position]` without a bounds
  check. Running off the buffer is modelled as failure.
- The type table has 255 entries, so looking up 0xFF reads past the end. The model classifies 0xFF as Unknown.
- JsonHandle.Json.Assign, JsonHandle.Json.AssignChars: the replaced node is stated untouched
  except when, below the root, it is the location's container itself (an array or object that
  holds itself through shared handles); there the container's slot is what changes.
- JsonHandle.Json.ToCbor: requires the current value to be well-formed (lengths and counts below 2^64 - 1), which a real tree cannot exceed.
- JsonHandle.Json.Size, JsonHandle.Json.HasKey: their contracts speak of the current node. The
  link to the value shown is the separate lemma `JsonHandle.CountsMatchValue`.
- CborWriter.Writer: capacity doubling through `std::vector::resize` is modelled on a `seq`. The
  model keeps the 512-byte rounding but not reallocation or aliasing of the buffer.
- Memory exhaustion and `std::bad_alloc`: not modelled.
- I/O (`std::cout`, `std::istream` parsing): not modelled.
- Tests of example/main.cc that are not restated: `test_json_object_parse`, `test_json_array_parse`,
  `test_json_long_string` and `test_json_multi_layer_get` start from `json::parse` (cJSON);
  `test_json_get_func` reads floating-point values.
- `test_json_parse_nlohmann_cbor_data` (example/main.cc:380-425): the decode of its 471 concrete
  bytes is not proved, because a proof over a literal of that size is beyond the verifier's budget.
  Those bytes encode a nested object with sorted keys, shortest heads and definite lengths, the
  shape `ValueCbor.Encode` produces, whose decode `CborRoundTrip.ValueRoundTrip` proves in general.

## Findings

| source | as written | input that shows it | evidently intended | confidence | as-written member | corrected member |
|---|---|---|---|---|---|---|
| src/cbor.cc:515-518 | `read_string(len, s)` rejects a length when `_position + len > _size`, and that sum wraps around in `size_t` | `7B FF FF FF FF FF FF FF FF`: the length 2^64 - 1 at position 9 wraps to 8, which passes the test, and `s.resize(len)` follows | reject when `len > _size - _position`, so a string body is read exactly when that many bytes remain | not executed | CborDecode.LengthCheckWraps | CborDecode.ReadStringLen |
