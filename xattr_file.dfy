/**
  The AppleDouble "._" file encoder of lib/xattr-file.js: `create` turns a map
  from extended-attribute names to values into one buffer made of four
  regions, packed one after another:

    top-level header (50 bytes)   "24sH LLL LLL"
    attribute header (68 bytes)   "32x xx 4s 4x LLL 12x 2x"
    key table                     count, then one padded record per name
    data blob                     the values, back to back

  Names and values are byte strings; every multi-byte field is big-endian.
 */
module XattrFile {
  import opened Bytes
  import opened KeyOrder

  type Name = seq<Byte>
  type Value = seq<Byte>

  datatype Option<T> = None | Some(value: T)

  // ---------------------------------------------------------------------
  // Format constants
  // ---------------------------------------------------------------------

  /** Magic 0x00051607, version 0x00020000, then the filler "Mac OS X" padded with spaces to 16 bytes. */
  const ApplMagic: seq<Byte> :=
    [0x00, 0x05, 0x16, 0x07, 0x00, 0x02, 0x00, 0x00,
     0x4d, 0x61, 0x63, 0x20, 0x4f, 0x53, 0x20, 0x58,
     0x20, 0x20, 0x20, 0x20, 0x20, 0x20, 0x20, 0x20]
  const ApplEntries: nat := 2
  const FinderInfoType: nat := 9
  const ResourceForkType: nat := 2
  /** "ATTR" */
  const AttrMagic: seq<Byte> := [0x41, 0x54, 0x54, 0x52]

  /** Size of "24sH LLL LLL": 24 + 2 + 3 * 4 + 3 * 4. */
  const ApplLength: nat := 50
  /** Size of "32x xx 4s 4x LLL 12x 2x": 32 + 2 + 4 + 4 + 3 * 4 + 12 + 2. */
  const AttrLength: nat := 68

  // ---------------------------------------------------------------------
  // Sums over sequences of byte strings
  // ---------------------------------------------------------------------

  /** Total length of a list of byte strings (the running `offset += valueLength`). */
  function SumLengths(chunks: seq<seq<Byte>>): nat
  {
    if |chunks| == 0 then 0
    else SumLengths(chunks[..|chunks| - 1]) + |chunks[|chunks| - 1]|
  }

  /** `Buffer.concat`: the byte strings joined back to back, with nothing between them. */
  function Concat(chunks: seq<seq<Byte>>): (r: seq<Byte>)
    ensures |r| == SumLengths(chunks)
  {
    if |chunks| == 0 then []
    else Concat(chunks[..|chunks| - 1]) + chunks[|chunks| - 1]
  }

  lemma SumLengthsSnoc(chunks: seq<seq<Byte>>, i: nat)
    requires i < |chunks|
    ensures SumLengths(chunks[..i + 1]) == SumLengths(chunks[..i]) + |chunks[i]|
  {
    assert chunks[..i + 1][..i] == chunks[..i];
  }

  /** A prefix never holds more bytes than the whole list. */
  lemma {:induction false} SumLengthsPrefix(chunks: seq<seq<Byte>>, i: nat)
    requires i <= |chunks|
    ensures SumLengths(chunks[..i]) <= SumLengths(chunks)
    decreases |chunks| - i
  {
    if i < |chunks| {
      SumLengthsSnoc(chunks, i);
      SumLengthsPrefix(chunks, i + 1);
    } else {
      assert chunks[..i] == chunks;
    }
  }

  /**
    Chunk i of a concatenation sits right after the chunks before it: the
    concatenation holds chunks[i] at offset SumLengths(chunks[..i]).
   */
  lemma {:induction false} ConcatSlice(chunks: seq<seq<Byte>>, i: nat)
    requires i < |chunks|
    ensures HoldsAt(Concat(chunks), SumLengths(chunks[..i]), chunks[i])
    decreases |chunks|
  {
    var n := |chunks| - 1;
    var init := chunks[..n];
    assert Concat(chunks) == Concat(init) + chunks[n];
    if i == n {
      assert chunks[..i] == init;
    } else {
      assert init[..i] == chunks[..i];
      ConcatSlice(init, i);
      assert init[i] == chunks[i];
    }
  }

  // ---------------------------------------------------------------------
  // Key table records: "LL HB S" followed by `pad` zero bytes
  // ---------------------------------------------------------------------

  /** One attribute directory record: where its value is, how long, flags, name. */
  datatype KeyEntry = KeyEntry(offset: nat, length: nat, flags: nat, nameLength: nat, name: Name)

  /** Size of "LL HB S" for a name: 4 + 4 + 2 + 1 + the name and its trailing NUL. */
  function RecordLength(name: Name): nat
  {
    4 + 4 + 2 + 1 + |name| + 1
  }

  /**
    Zero bytes after a record: always at least one, a full four when the
    record is already 4-byte aligned, and the padded record is aligned.
   */
  function KeyPadding(name: Name): (pad: nat)
    ensures 1 <= pad <= 4
    ensures (RecordLength(name) + pad) % 4 == 0
    ensures pad == 4 <==> RecordLength(name) % 4 == 0
  {
    4 - RecordLength(name) % 4
  }

  function PaddedLength(name: Name): nat
  {
    RecordLength(name) + KeyPadding(name)
  }

  /** Bytes taken by the records of `keys`, padding included (first loop of createAttrKeys). */
  function PaddedSum(keys: seq<Name>): nat
  {
    if |keys| == 0 then 0
    else PaddedSum(keys[..|keys| - 1]) + PaddedLength(keys[|keys| - 1])
  }

  lemma PaddedSumSnoc(keys: seq<Name>, i: nat)
    requires i < |keys|
    ensures PaddedSum(keys[..i + 1]) == PaddedSum(keys[..i]) + PaddedLength(keys[i])
  {
    assert keys[..i + 1][..i] == keys[..i];
  }

  /** The whole key table: the 2-byte count and every padded record. */
  function KeysLength(keys: seq<Name>): nat
  {
    2 + PaddedSum(keys)
  }

  /** The padding of each record, in order: what the source spells into its format string. */
  function Paddings(keys: seq<Name>): (pads: seq<nat>)
    ensures |pads| == |keys|
    ensures forall i :: 0 <= i < |keys| ==> pads[i] == KeyPadding(keys[i])
  {
    seq(|keys|, i requires 0 <= i < |keys| => KeyPadding(keys[i]))
  }

  /**
    The directory record of name i when the values start at `dataOffset`:
    it points at dataOffset plus the lengths of the values before it.
   */
  function EntryOf(keys: seq<Name>, values: seq<Value>, dataOffset: nat, i: nat): KeyEntry
    requires |keys| == |values| && i < |keys|
  {
    KeyEntry(dataOffset + SumLengths(values[..i]), |values[i]|, 0, |keys[i]| + 1, keys[i])
  }

  /** The directory records of `keys`, in order, whose values start at `dataOffset`. */
  function KeyEntries(keys: seq<Name>, values: seq<Value>, dataOffset: nat): (es: seq<KeyEntry>)
    requires |keys| == |values|
    ensures |es| == |keys|
  {
    seq(|keys|, i requires 0 <= i < |keys| => EntryOf(keys, values, dataOffset, i))
  }

  /** All fields of a record fit their `L`, `L`, `H` and `B` slots. */
  predicate Packable(e: KeyEntry)
  {
    e.offset < TwoTo32 && e.length < TwoTo32 && e.flags < TwoTo16 && e.nameLength < 0x100
  }

  /**
    The record at `p` of `buf` reads back `e`: the value offset and the value
    length (`L`, `L`), the flags (`H`), the name length (`B`), then the name
    and its trailing NUL.
   */
  predicate RecordAt(buf: seq<Byte>, p: nat, e: KeyEntry)
  {
    && p + RecordLength(e.name) <= |buf|
    && ReadU32(buf, p) == e.offset
    && ReadU32(buf, p + 4) == e.length
    && ReadU16(buf, p + 8) == e.flags
    && buf[p + 10] == e.nameLength
    && buf[p + 11..p + 11 + |e.name|] == e.name
    && buf[p + 11 + |e.name|] == 0
  }

  /**
    "LL HB S" + pad "x": offset, length, flags, name length, the name with
    its trailing NUL, then `pad` zero bytes. Every field reads back.
   */
  function PackRecord(e: KeyEntry, pad: nat): (r: seq<Byte>)
    requires Packable(e)
    ensures |r| == RecordLength(e.name) + pad
    ensures RecordAt(r, 0, e)
    ensures r[RecordLength(e.name)..] == Zeros(pad)
  {
    var r := U32(e.offset) + U32(e.length) + U16(e.flags) + [e.nameLength] + e.name + [0] + Zeros(pad);
    assert HoldsAt(r, 0, U32(e.offset));
    ReadU32Embedded(r, 0, U32(e.offset), 0);
    assert HoldsAt(r, 4, U32(e.length));
    ReadU32Embedded(r, 4, U32(e.length), 0);
    assert HoldsAt(r, 8, U16(e.flags));
    ReadU16Embedded(r, 8, U16(e.flags), 0);
    assert r[11..11 + |e.name|] == e.name;
    r
  }

  predicate AllPackable(entries: seq<KeyEntry>)
  {
    forall i :: 0 <= i < |entries| ==> Packable(entries[i])
  }

  /** The records one after another, each with its padding. */
  function PackRecords(entries: seq<KeyEntry>, pads: seq<nat>): (rs: seq<seq<Byte>>)
    requires |pads| == |entries| && AllPackable(entries)
    ensures |rs| == |entries|
    ensures forall i :: 0 <= i < |entries| ==> |rs[i]| == RecordLength(entries[i].name) + pads[i]
  {
    seq(|entries|, i requires 0 <= i < |entries| => PackRecord(entries[i], pads[i]))
  }

  /** "H " followed by the records: the buffer createAttrKeys packs. */
  function PackKeyTable(count: nat, entries: seq<KeyEntry>, pads: seq<nat>): (r: seq<Byte>)
    requires count < TwoTo16 && |pads| == |entries| && AllPackable(entries)
    ensures |r| == 2 + |Concat(PackRecords(entries, pads))|
    ensures ReadU16(r, 0) == count
    ensures HoldsAt(r, 2, Concat(PackRecords(entries, pads)))
  {
    var r := U16(count) + Concat(PackRecords(entries, pads));
    assert HoldsAt(r, 0, U16(count));
    ReadU16Embedded(r, 0, U16(count), 0);
    assert r[2..2 + |Concat(PackRecords(entries, pads))|] == Concat(PackRecords(entries, pads));
    r
  }

  /**
    What the source leaves unchecked: a name length with its NUL fits a
    byte, the count fits two bytes, and every offset into the file (up to
    the end of the data blob) fits four bytes.
   */
  predicate KeysFit(keys: seq<Name>, values: seq<Value>, start: nat)
  {
    && |keys| == |values|
    && |keys| < TwoTo16
    && (forall i :: 0 <= i < |keys| ==> |keys[i]| + 1 < 0x100)
    && start + KeysLength(keys) + SumLengths(values) < TwoTo32
  }

  lemma KeyEntriesPackable(keys: seq<Name>, values: seq<Value>, start: nat)
    requires KeysFit(keys, values, start)
    ensures AllPackable(KeyEntries(keys, values, start + KeysLength(keys)))
  {
    var es := KeyEntries(keys, values, start + KeysLength(keys));
    forall i | 0 <= i < |keys|
      ensures Packable(es[i])
    {
      SumLengthsSnoc(values, i);
      SumLengthsPrefix(values, i + 1);
    }
  }

  /**
    Reference definition of the key table for data that follows the table,
    when the table itself starts at file offset `start`.
   */
  function KeyTable(keys: seq<Name>, values: seq<Value>, start: nat): seq<Byte>
    requires KeysFit(keys, values, start)
  {
    KeyEntriesPackable(keys, values, start);
    PackKeyTable(|keys|, KeyEntries(keys, values, start + KeysLength(keys)), Paddings(keys))
  }

  /** The padded records of the key table, one per name. */
  function KeyRecords(keys: seq<Name>, values: seq<Value>, start: nat): (rs: seq<seq<Byte>>)
    requires KeysFit(keys, values, start)
    ensures |rs| == |keys|
    ensures forall i :: 0 <= i < |keys| ==> |rs[i]| == PaddedLength(keys[i])
  {
    KeyEntriesPackable(keys, values, start);
    PackRecords(KeyEntries(keys, values, start + KeysLength(keys)), Paddings(keys))
  }

  /**
    createAttrKeys: a first pass sizes the table and leaves the cursor at
    the first byte after it, where the data blob begins; a second pass gives
    each record that cursor and advances it by the record's value length.
   */
  method CreateAttrKeys(keys: seq<Name>, values: seq<Value>, start: nat) returns (buf: seq<Byte>)
    requires KeysFit(keys, values, start)
    ensures |buf| == KeysLength(keys)
    ensures buf == KeyTable(keys, values, start)
  {
    var pads: seq<nat> := [];
    var offset := start + 2;
    for i := 0 to |keys|
      invariant |pads| == i && forall j :: 0 <= j < i ==> pads[j] == KeyPadding(keys[j])
      invariant offset == start + 2 + PaddedSum(keys[..i])
    {
      var length := RecordLength(keys[i]);
      var padding := 4 - length % 4;
      pads := pads + [padding];
      offset := offset + length + padding;
      PaddedSumSnoc(keys, i);
    }
    ghost var dataOffset := start + KeysLength(keys);
    assert offset == start + 2 + PaddedSum(keys[..|keys|]);
    PaddedSumAll(keys);

    var entries: seq<KeyEntry> := [];
    for i := 0 to |keys|
      invariant |entries| == i
      invariant forall j :: 0 <= j < i ==> entries[j] == EntryOf(keys, values, dataOffset, j)
      invariant offset == dataOffset + SumLengths(values[..i])
    {
      var key := keys[i];
      var value := values[i];
      var keyLength := |key| + 1;
      var valueLength := |value|;
      var flags := 0;
      assert KeyEntry(offset, valueLength, flags, keyLength, key) == EntryOf(keys, values, dataOffset, i);
      entries := entries + [KeyEntry(offset, valueLength, flags, keyLength, key)];
      offset := offset + valueLength;
      SumLengthsSnoc(values, i);
    }

    KeyTableOfPasses(keys, values, start, pads, entries);
    buf := PackKeyTable(|keys|, entries, pads);
  }

  lemma PaddedSumAll(keys: seq<Name>)
    ensures 2 + PaddedSum(keys[..|keys|]) == KeysLength(keys)
  {
    assert keys[..|keys|] == keys;
  }

  /** What the two passes collected is what the key table is packed from. */
  lemma KeyTableOfPasses(keys: seq<Name>, values: seq<Value>, start: nat, pads: seq<nat>, entries: seq<KeyEntry>)
    requires KeysFit(keys, values, start)
    requires |pads| == |keys| && forall j :: 0 <= j < |keys| ==> pads[j] == KeyPadding(keys[j])
    requires |entries| == |keys|
    requires forall j :: 0 <= j < |keys| ==> entries[j] == EntryOf(keys, values, start + KeysLength(keys), j)
    ensures |keys| < TwoTo16 && |pads| == |entries| && AllPackable(entries)
    ensures PackKeyTable(|keys|, entries, pads) == KeyTable(keys, values, start)
    ensures |PackKeyTable(|keys|, entries, pads)| == KeysLength(keys)
  {
    assert pads == Paddings(keys);
    assert entries == KeyEntries(keys, values, start + KeysLength(keys));
    KeyEntriesPackable(keys, values, start);
    KeyTableLength(keys, values, start);
  }

  /** Records as long as their padded names add up to the first pass's padded sum. */
  lemma {:induction false} RecordsLength(rs: seq<seq<Byte>>, keys: seq<Name>, i: nat)
    requires |rs| == |keys| && i <= |keys|
    requires forall j :: 0 <= j < |keys| ==> |rs[j]| == PaddedLength(keys[j])
    ensures SumLengths(rs[..i]) == PaddedSum(keys[..i])
    decreases i
  {
    if i > 0 {
      RecordsLength(rs, keys, i - 1);
      SumLengthsSnoc(rs, i - 1);
      PaddedSumSnoc(keys, i - 1);
    }
  }

  /** The key table is as long as the first pass computed. */
  lemma KeyTableLength(keys: seq<Name>, values: seq<Value>, start: nat)
    requires KeysFit(keys, values, start)
    ensures |KeyTable(keys, values, start)| == KeysLength(keys)
  {
    var rs := KeyRecords(keys, values, start);
    RecordsLength(rs, keys, |keys|);
    assert rs[..|keys|] == rs;
    assert keys[..|keys|] == keys;
  }

  // ---------------------------------------------------------------------
  // Data blob
  // ---------------------------------------------------------------------

  /** createAttrData: the values, copied one per loop step and concatenated. */
  method CreateAttrData(values: seq<Value>) returns (buf: seq<Byte>)
    ensures buf == Concat(values)
    ensures |buf| == SumLengths(values)
  {
    var bufs: seq<seq<Byte>> := [];
    for i := 0 to |values|
      invariant bufs == values[..i]
    {
      bufs := bufs + [values[i]];
    }
    assert values[..|values|] == values;
    buf := Concat(bufs);
  }

  // ---------------------------------------------------------------------
  // Layout and the two headers
  // ---------------------------------------------------------------------

  /** Offsets and lengths of the regions, computed from the two variable lengths. */
  datatype Layout = Layout(
    finderInfoOffset: nat, finderInfoLength: nat,
    resourceForkOffset: nat, resourceForkLength: nat,
    dataOffset: nat, dataLength: nat, fileLength: nat)

  /**
    The Finder Info entry covers everything after the top-level header, the
    empty resource fork sits at the very end, and the data blob ends the file.
   */
  function ComputeLayout(keysLength: nat, dataLength: nat): (l: Layout)
    requires ApplLength + AttrLength + keysLength + dataLength < TwoTo32
    ensures l.fileLength == ApplLength + AttrLength + keysLength + dataLength
    ensures l.finderInfoOffset == ApplLength
    ensures l.finderInfoOffset + l.finderInfoLength == l.fileLength
    ensures l.resourceForkOffset == l.fileLength && l.resourceForkLength == 0
    ensures l.dataLength == dataLength && l.dataOffset + l.dataLength == l.fileLength
    ensures LayoutFits(l)
  {
    var dataOffset := ApplLength + AttrLength + keysLength;
    var fileLength := ApplLength + AttrLength + keysLength + dataLength;
    Layout(
      ApplLength, AttrLength + keysLength + dataLength,
      fileLength, 0,
      dataOffset, dataLength, fileLength)
  }

  /** Every offset and length fits its 32-bit field. */
  predicate LayoutFits(l: Layout)
  {
    l.finderInfoOffset < TwoTo32 && l.finderInfoLength < TwoTo32
    && l.resourceForkOffset < TwoTo32 && l.resourceForkLength < TwoTo32
    && l.dataOffset < TwoTo32 && l.dataLength < TwoTo32 && l.fileLength < TwoTo32
  }

  /**
    The top-level header at the start of `buf` reads back `l`: magic and
    filler, two entries, the Finder Info entry (type 9) and the Resource
    Fork entry (type 2), each as (type, offset, length).
   */
  predicate ApplHeaderAt(buf: seq<Byte>, l: Layout)
  {
    && ApplLength <= |buf|
    && buf[0..24] == ApplMagic
    && ReadU16(buf, 24) == ApplEntries
    && ReadU32(buf, 26) == FinderInfoType
    && ReadU32(buf, 30) == l.finderInfoOffset
    && ReadU32(buf, 34) == l.finderInfoLength
    && ReadU32(buf, 38) == ResourceForkType
    && ReadU32(buf, 42) == l.resourceForkOffset
    && ReadU32(buf, 46) == l.resourceForkLength
  }

  /** "24sH LLL LLL": the top-level header for `l`. */
  function PackApplHeader(l: Layout): (r: seq<Byte>)
    requires LayoutFits(l)
    ensures |r| == ApplLength
    ensures ApplHeaderAt(r, l)
  {
    var r := ApplMagic + U16(ApplEntries)
      + U32(FinderInfoType) + U32(l.finderInfoOffset) + U32(l.finderInfoLength)
      + U32(ResourceForkType) + U32(l.resourceForkOffset) + U32(l.resourceForkLength);
    assert r[0..24] == ApplMagic;
    assert HoldsAt(r, 24, U16(ApplEntries));
    ReadU16Embedded(r, 24, U16(ApplEntries), 0);
    assert HoldsAt(r, 26, U32(FinderInfoType));
    ReadU32Embedded(r, 26, U32(FinderInfoType), 0);
    assert HoldsAt(r, 30, U32(l.finderInfoOffset));
    ReadU32Embedded(r, 30, U32(l.finderInfoOffset), 0);
    assert HoldsAt(r, 34, U32(l.finderInfoLength));
    ReadU32Embedded(r, 34, U32(l.finderInfoLength), 0);
    assert HoldsAt(r, 38, U32(ResourceForkType));
    ReadU32Embedded(r, 38, U32(ResourceForkType), 0);
    assert HoldsAt(r, 42, U32(l.resourceForkOffset));
    ReadU32Embedded(r, 42, U32(l.resourceForkOffset), 0);
    assert HoldsAt(r, 46, U32(l.resourceForkLength));
    ReadU32Embedded(r, 46, U32(l.resourceForkLength), 0);
    r
  }

  /**
    The attribute header at offset `at` of `buf` reads back `l`: 34 zero
    bytes (the empty Finder Info and its padding), "ATTR", four zero bytes,
    the total file length, the data offset and the data length, then
    fourteen zero bytes.
   */
  predicate AttrHeaderAt(buf: seq<Byte>, at: nat, l: Layout)
  {
    && at + AttrLength <= |buf|
    && buf[at..at + 34] == Zeros(34)
    && buf[at + 34..at + 38] == AttrMagic
    && buf[at + 38..at + 42] == Zeros(4)
    && ReadU32(buf, at + 42) == l.fileLength
    && ReadU32(buf, at + 46) == l.dataOffset
    && ReadU32(buf, at + 50) == l.dataLength
    && buf[at + 54..at + 68] == Zeros(14)
  }

  /** "32x xx 4s 4x LLL 12x 2x": the attribute header for `l`. */
  function PackAttrHeader(l: Layout): (r: seq<Byte>)
    requires LayoutFits(l)
    ensures |r| == AttrLength
    ensures AttrHeaderAt(r, 0, l)
  {
    var r := Zeros(32) + Zeros(2) + AttrMagic + Zeros(4)
      + U32(l.fileLength) + U32(l.dataOffset) + U32(l.dataLength)
      + Zeros(12) + Zeros(2);
    assert r[0..34] == Zeros(34);
    assert r[34..38] == AttrMagic;
    assert r[38..42] == Zeros(4);
    assert HoldsAt(r, 42, U32(l.fileLength));
    ReadU32Embedded(r, 42, U32(l.fileLength), 0);
    assert HoldsAt(r, 46, U32(l.dataOffset));
    ReadU32Embedded(r, 46, U32(l.dataOffset), 0);
    assert HoldsAt(r, 50, U32(l.dataLength));
    ReadU32Embedded(r, 50, U32(l.dataLength), 0);
    assert r[54..68] == Zeros(14);
    r
  }

  // ---------------------------------------------------------------------
  // create
  // ---------------------------------------------------------------------

  /** The value of each name, in the order of `keys`. */
  function ValuesOf(m: map<Name, Value>, keys: seq<Name>): (vs: seq<Value>)
    requires forall k :: k in keys ==> k in m
    ensures |vs| == |keys|
    ensures forall i :: 0 <= i < |keys| ==> vs[i] == m[keys[i]]
  {
    seq(|keys|, i requires 0 <= i < |keys| => m[keys[i]])
  }

  /** The names of `m` in the order the file lays them out. */
  function Names(m: map<Name, Value>): seq<Name>
  {
    SortedKeys(m.Keys)
  }

  /** The attribute set fits the format's fixed-width fields. */
  predicate Encodable(m: map<Name, Value>)
  {
    var keys := Names(m);
    KeysFit(keys, ValuesOf(m, keys), ApplLength + AttrLength)
  }

  lemma EmptyEncodable()
    ensures Encodable(map[])
  {
    var empty: map<Name, Value> := map[];
    assert SortedKeys(empty.Keys) == [];
  }

  /** Reference definition of the file for names already in order, with their values. */
  function EncodeSorted(keys: seq<Name>, values: seq<Value>): seq<Byte>
    requires KeysFit(keys, values, ApplLength + AttrLength)
  {
    var l := ComputeLayout(KeysLength(keys), SumLengths(values));
    PackApplHeader(l) + PackAttrHeader(l) + KeyTable(keys, values, ApplLength + AttrLength) + Concat(values)
  }

  /** Reference definition of the file: the four regions for the sorted names. */
  function Encode(m: map<Name, Value>): seq<Byte>
    requires Encodable(m)
  {
    var keys := Names(m);
    EncodeSorted(keys, ValuesOf(m, keys))
  }

  /**
    create: a missing attribute set counts as empty; names are sorted and
    their values collected in the same order; the key table and the data
    blob are built; the layout is computed from their lengths; the headers
    are packed and the four regions joined.
   */
  method Create(attrs: Option<map<Name, Value>>) returns (buf: seq<Byte>)
    requires attrs.Some? ==> Encodable(attrs.value)
    ensures attrs.None? ==> buf == Encode(map[])
    ensures attrs.Some? ==> buf == Encode(attrs.value)
  {
    var m: map<Name, Value> := if attrs.None? then map[] else attrs.value;
    if attrs.None? {
      EmptyEncodable();
    }

    var keys := Names(m);
    var values: seq<Value> := [];
    for i := 0 to |keys|
      invariant |values| == i
      invariant forall j :: 0 <= j < i ==> values[j] == m[keys[j]]
    {
      assert keys[i] in m.Keys;
      values := values + [m[keys[i]]];
    }
    ValuesCollected(m, keys, values);

    var applLength := ApplLength;
    var attrLength := AttrLength;

    var keysBuffer := CreateAttrKeys(keys, values, applLength + attrLength);
    var keysLength: nat := |keysBuffer|;

    var dataBuffer := CreateAttrData(values);
    var dataLength: nat := |dataBuffer|;

    EncodeOfParts(keys, values, keysBuffer, dataBuffer);
    var layout := ComputeLayout(keysLength, dataLength);

    var applBuffer := PackApplHeader(layout);
    var attrBuffer := PackAttrHeader(layout);

    buf := applBuffer + attrBuffer + keysBuffer + dataBuffer;
  }

  /** The loop of create collects exactly the values of the sorted names. */
  lemma ValuesCollected(m: map<Name, Value>, keys: seq<Name>, values: seq<Value>)
    requires forall k :: k in keys ==> k in m
    requires |values| == |keys| && forall j :: 0 <= j < |keys| ==> values[j] == m[keys[j]]
    ensures values == ValuesOf(m, keys)
  {
  }

  /** The four buffers create joins are the regions of the reference file. */
  lemma EncodeOfParts(keys: seq<Name>, values: seq<Value>, keysBuffer: seq<Byte>, dataBuffer: seq<Byte>)
    requires KeysFit(keys, values, ApplLength + AttrLength)
    requires keysBuffer == KeyTable(keys, values, ApplLength + AttrLength) && |keysBuffer| == KeysLength(keys)
    requires dataBuffer == Concat(values)
    ensures ApplLength + AttrLength + |keysBuffer| + |dataBuffer| < TwoTo32
    ensures PackApplHeader(ComputeLayout(|keysBuffer|, |dataBuffer|))
          + PackAttrHeader(ComputeLayout(|keysBuffer|, |dataBuffer|))
          + keysBuffer + dataBuffer
         == EncodeSorted(keys, values)
  {
  }
}
