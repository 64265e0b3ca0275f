# xattr-file: the AppleDouble "._" encoder, in Dafny

`create(attrs)` in lib/xattr-file.js turns a map from extended-attribute
names to values into one in-memory AppleDouble (version 2) sidecar file.
The file has four regions, packed one after another:

- the top-level header, "24sH LLL LLL", 50 bytes. It holds the magic,
  version and filler, the entry count 2, and two entries. The Finder Info
  entry (type 9) covers everything after this header. The Resource Fork
  entry (type 2) is empty and sits at the end of the file.
- the attribute header, "32x xx 4s 4x LLL 12x 2x", 68 bytes. It holds
  34 zero bytes, "ATTR", 4 zero bytes, the file length, the data offset,
  the data length and 14 zero bytes.
- the key table, built by `createAttrKeys`. It holds a 2-byte count, then
  one record per name: "LL HB S". A record holds the value offset, the
  value length, the flags (0), the name length with its NUL, the name and
  the NUL. Each record is followed by 1 to 4 zero bytes of padding.
- the data blob, built by `createAttrData`: the values back to back.

Names are sorted first. The values are collected in the same order, so
record i and the i-th value of the blob belong to the same attribute.

The model has four modules:

- `Bytes` (bytes.dfy): big-endian 2- and 4-byte writers and the readers
  that invert them, zero fill, and `HoldsAt` ("this buffer holds that
  byte string at that offset"). These stand in for the `bufferpack`
  library.
- `KeyOrder` (key_order.dfy): the byte-lexicographic order and
  `SortedKeys`, which stands in for `Object.keys(attrs).sort()`.
- `XattrFile` (xattr_file.dfy): the constants and the reference
  definition of the file, `Encode`. `CreateAttrKeys`, `CreateAttrData`
  and `Create` are methods with the source's loops, proved equal to that
  definition.
- `XattrFileProperties` (xattr_file_properties.dfy): what a reader of the
  produced buffer finds in it. Both headers read back the layout. Record i
  reads back the i-th name, its value's offset and its value's length.
  The range the record points at holds exactly that value.

## Model

| member | source | states |
|---|---|---|
| Bytes.U16 | lib/xattr-file.js:67 | `H` is two bytes that read back, big-endian, as the number written |
| Bytes.U32 | lib/xattr-file.js:57 | `L` is four bytes that read back, big-endian, as the number written |
| Bytes.Zeros | lib/xattr-file.js:64 | `Nx` is N bytes, all zero |
| KeyOrder.SortedKeys | lib/xattr-file.js:124 | the sorted names list every name of the map exactly once (same count, same members) |
| KeyOrder.SortedKeysAscending | lib/xattr-file.js:124 | the sorted names are strictly ascending in byte-lexicographic order |
| XattrFile.Concat | lib/xattr-file.js:116 | `Buffer.concat` yields as many bytes as its parts together |
| XattrFile.ConcatSlice | lib/xattr-file.js:116 | part i of a concatenation sits right after the parts before it, byte for byte |
| XattrFile.KeyPadding | lib/xattr-file.js:79-80 | the padding after a record is 1 to 4 bytes, makes the padded record a multiple of 4, and is 4 exactly when the record is already aligned |
| XattrFile.PackRecord | lib/xattr-file.js:94-100 | a packed "LL HB S" record, followed by its padding, reads back the offset, length, flags, name length, name and NUL it was given; the padding is all zero |
| XattrFile.PackKeyTable | lib/xattr-file.js:105 | the key table starts with the 2-byte count and holds the records back to back from byte 2 |
| XattrFile.KeyEntriesPackable | lib/xattr-file.js:94-100 | when the names and the file fit the format, every record's offset, length and name length fit their fields |
| XattrFile.CreateAttrKeys | lib/xattr-file.js:70-106 | the two passes produce exactly the reference key table for values stored after it, and its length is the count plus the padded records |
| XattrFile.KeyTableOfPasses | lib/xattr-file.js:77-103 | the paddings of the first pass and the records of the second pass are those of the reference key table |
| XattrFile.RecordsLength | lib/xattr-file.js:82 | records sized as their padded names add up to the first pass's cursor advance |
| XattrFile.KeyTableLength | lib/xattr-file.js:74-83 | the packed key table is exactly as long as the first pass computed |
| XattrFile.CreateAttrData | lib/xattr-file.js:109-117 | the data blob is the values concatenated in order, and its length is the sum of their lengths |
| XattrFile.ComputeLayout | lib/xattr-file.js:139-145 | the file length is 50 + 68 + key table + data; Finder Info starts at 50 and ends at the end of the file; the resource fork is empty at the end; the data ends the file; every field fits 32 bits |
| XattrFile.PackApplHeader | lib/xattr-file.js:147-156 | the 50-byte top-level header reads back the magic, 2 entries, and type/offset/length of Finder Info (9) and Resource Fork (2) |
| XattrFile.PackAttrHeader | lib/xattr-file.js:158-163 | the 68-byte attribute header reads back zero fill, "ATTR", the file length, data offset and data length |
| XattrFile.ValuesOf | lib/xattr-file.js:125-128 | value i is the value of name i, so the key table and the blob share one order |
| XattrFile.Create | lib/xattr-file.js:120-171 | a missing map is encoded as the empty one; otherwise the buffer is the reference encoding of the map |
| XattrFileProperties.KeyEntriesContiguous | lib/xattr-file.js:86-103 | the first record points at the data offset; each record's value ends where the next one's starts; the last ends where the blob ends; lengths, flags 0 and name length with NUL as recorded |
| XattrFileProperties.PaddedSumAligned | lib/xattr-file.js:76-83 | the padded records together are a multiple of 4 bytes |
| XattrFileProperties.RecordStartAligned | lib/xattr-file.js:80-82 | every record of the key table starts on a 4-byte boundary of the file |
| XattrFileProperties.KeyTableLayout | lib/xattr-file.js:72-73 | the key table's first two bytes read back the number of names, and the records follow from byte 2 |
| XattrFileProperties.KeyTableRecordFields | lib/xattr-file.js:86-105 | record i, read back from the key table at its offset, is entry i |
| XattrFileProperties.KeyTableFirstOffset | lib/xattr-file.js:74-95 | the first record starts at byte 2 and points at the first byte after the table, where the first pass leaves the cursor |
| XattrFileProperties.EncodeRegions | lib/xattr-file.js:165-170 | the file is as long as the layout says and holds the four regions at 0, 50, 118 and the data offset |
| XattrFileProperties.EncodeFileHeader | lib/xattr-file.js:142-156 | the file's top-level header reads back the layout; Finder Info runs from 50 to the end of the file; the resource fork is empty at its end |
| XattrFileProperties.EncodeAttrHeader | lib/xattr-file.js:139-163 | the file's attribute header reads back the file length, data offset and data length; the blob fills the file from the data offset to its end; the key table count is the number of attributes |
| XattrFileProperties.EncodeNamesSorted | lib/xattr-file.js:124 | the names laid out in the file are the map's keys, each once, strictly ascending |
| XattrFileProperties.EncodeRecordReadBack | lib/xattr-file.js:86-103 | record i of the file reads back name i, the offset of its value, the value's length, flags 0 and the name length with NUL |
| XattrFileProperties.EncodeValueReadBack | lib/xattr-file.js:109-117 | the file holds the value of name i at the offset record i gives |
| XattrFileProperties.EncodeRoundTrip | lib/xattr-file.js:86-103 | reading record i's offset and length from the file and taking that range gives back exactly the value of name i |
| XattrFileProperties.EncodeEmpty | lib/xattr-file.js:121 | a missing or empty map gives 120 bytes: the two headers and a count of 0, with data length 0 and data offset equal to the file length, 120 |

## Left out

- `bufferpack` is not part of this model. Its `pack` and `calcLength` are replaced by the writers in `Bytes`, with the field sizes of the format strings: `H` 2, `L` 4, `B` 1, `Nx` N zero bytes, `s` fixed bytes, `S` the bytes then a NUL.
- JavaScript strings: `key.length` and `value.length` count UTF-16 code units, and `new Buffer(value)` converts to UTF-8. The model takes names and values as byte strings and uses their byte lengths. `Array.prototype.sort` compares UTF-16 code units; the model orders names byte by byte.
- XattrFileProperties.EncodeRoundTrip: holds for byte-string values only. In the program it holds for Buffer values and for strings whose UTF-16 length equals their UTF-8 byte count (such as ASCII). For a string such as "é", lib/xattr-file.js:91 records length 1 while :113 writes 2 bytes. That record's range then misses bytes, and every later record's offset, advanced by `offset += valueLength` at :102, points at the wrong bytes. The headers still match the buffer, because `dataLength` comes from `dataBuffer.length` at :137. The model does not capture this mismatch.
- XattrFile.CreateAttrKeys: the source writes a name length over 255, a count over 65535, or an offset of 2^32 or more into its 1-, 2- and 4-byte fields without checking, with `bufferpack`'s behaviour. The model requires `KeysFit` instead and does not model that truncation.
- XattrFile.Create: requires `Encodable` (the same limits as `KeysFit` for the sorted names) instead of modelling truncation in the packed fields.
- XattrFile.ComputeLayout: requires the file length to fit 32 bits instead of modelling truncation in the header fields.
- XattrFile.PackRecord: requires each field to fit its slot instead of modelling truncation.
- Validation: lib/xattr-file.js does not reject empty names, names with a NUL, names over 254 bytes or more than 65535 attributes, and has no error path. The model follows the code: it has no error results, and the field limits are preconditions.
- Padding: the code always adds 1 to 4 zero bytes after a record (`4 - length % 4`), a full 4 when the record is already aligned. The model keeps that rule as written.
- `!attrs` treats every falsy argument as missing. The model's input is `Option<map>`, where `None` is the missing map.
- I/O: the source has none. Writing the buffer out is the caller's job.
