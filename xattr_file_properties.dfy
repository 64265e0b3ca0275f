/**
  What the encoder of lib/xattr-file.js promises about the buffer it builds,
  stated as a reader of the file would check it: both headers read back the
  layout, the key table starts with the number of attributes, record i of
  the key table reads back the i-th name and the place of its value, and
  that place holds exactly the value.
 */
module XattrFileProperties {
  import opened Bytes
  import opened KeyOrder
  import opened XattrFile

  // ---------------------------------------------------------------------
  // Reading through nested copies
  // ---------------------------------------------------------------------

  /** A record read inside a copy of `r` placed at `at` is the record read in `r`. */
  lemma RecordAtNested(buf: seq<Byte>, at: nat, r: seq<Byte>, q: nat, e: KeyEntry, p: nat)
    requires HoldsAt(buf, at, r) && RecordAt(r, q, e) && p == at + q
    ensures RecordAt(buf, p, e)
  {
    ReadU32Embedded(buf, at, r, q);
    ReadU32Embedded(buf, at, r, q + 4);
    ReadU16Embedded(buf, at, r, q + 8);
    assert buf[p + 10] == r[q + 10];
    SliceEmbedded(buf, at, r, q + 11, q + 11 + |e.name|);
    assert buf[p + 11 + |e.name|] == r[q + 11 + |e.name|];
  }

  /**
    What a reader of the file takes as the value of the record at `p`: the
    bytes from the record's offset, as many as its length says, or nothing
    when the record or that range does not fit in the file.
   */
  function RecordValue(buf: seq<Byte>, p: nat): Option<seq<Byte>>
  {
    if p + 8 <= |buf| && ReadU32(buf, p) + ReadU32(buf, p + 4) <= |buf|
    then Some(buf[ReadU32(buf, p)..ReadU32(buf, p) + ReadU32(buf, p + 4)])
    else None
  }

  /** A record that holds `e`, whose range holds `v` of the recorded length, reads back `v`. */
  lemma RecordRange(buf: seq<Byte>, p: nat, e: KeyEntry, v: seq<Byte>)
    requires RecordAt(buf, p, e) && HoldsAt(buf, e.offset, v) && e.length == |v|
    ensures RecordValue(buf, p) == Some(v)
  {
  }

  /** A record read inside a copy of the key table, whose range holds `v`, reads back `v`. */
  lemma RecordValueNested(buf: seq<Byte>, at: nat, t: seq<Byte>, q: nat, e: KeyEntry, v: seq<Byte>, p: nat)
    requires HoldsAt(buf, at, t) && RecordAt(t, q, e) && p == at + q
    requires HoldsAt(buf, e.offset, v) && e.length == |v|
    ensures RecordValue(buf, p) == Some(v)
  {
    RecordAtNested(buf, at, t, q, e, p);
    RecordRange(buf, p, e, v);
  }

  /** The top-level header read inside a copy placed at the start of `buf`. */
  lemma ApplHeaderNested(buf: seq<Byte>, h: seq<Byte>, l: Layout)
    requires HoldsAt(buf, 0, h) && ApplHeaderAt(h, l)
    ensures ApplHeaderAt(buf, l)
  {
    SliceEmbedded(buf, 0, h, 0, 24);
    ReadU16Embedded(buf, 0, h, 24);
    ReadU32Embedded(buf, 0, h, 26);
    ReadU32Embedded(buf, 0, h, 30);
    ReadU32Embedded(buf, 0, h, 34);
    ReadU32Embedded(buf, 0, h, 38);
    ReadU32Embedded(buf, 0, h, 42);
    ReadU32Embedded(buf, 0, h, 46);
  }

  /** The attribute header read inside a copy placed at `at`. */
  lemma AttrHeaderNested(buf: seq<Byte>, at: nat, h: seq<Byte>, l: Layout)
    requires HoldsAt(buf, at, h) && AttrHeaderAt(h, 0, l)
    ensures AttrHeaderAt(buf, at, l)
  {
    SliceEmbedded(buf, at, h, 0, 34);
    SliceEmbedded(buf, at, h, 34, 38);
    SliceEmbedded(buf, at, h, 38, 42);
    ReadU32Embedded(buf, at, h, 42);
    ReadU32Embedded(buf, at, h, 46);
    ReadU32Embedded(buf, at, h, 50);
    SliceEmbedded(buf, at, h, 54, 68);
  }

  // ---------------------------------------------------------------------
  // The key table on its own
  // ---------------------------------------------------------------------

  /**
    The records point at contiguous value regions: the first at the data
    offset, each next one where the previous ends, the last ending where
    the data blob does. Each records its value's length, flags 0 and the
    name length with its NUL.
   */
  lemma KeyEntriesContiguous(keys: seq<Name>, values: seq<Value>, dataOffset: nat, i: nat)
    requires |keys| == |values| && i < |keys|
    ensures
      var es := KeyEntries(keys, values, dataOffset);
      && (i == 0 ==> es[i].offset == dataOffset)
      && es[i].length == |values[i]| && es[i].flags == 0
      && es[i].nameLength == |keys[i]| + 1 && es[i].name == keys[i]
      && (i + 1 < |keys| ==> es[i].offset + es[i].length == es[i + 1].offset)
      && (i + 1 == |keys| ==> es[i].offset + es[i].length == dataOffset + SumLengths(values))
  {
    SumLengthsSnoc(values, i);
    if i + 1 == |keys| {
      assert values[..i + 1] == values;
    }
  }

  /** Every record of the key table, padding included, is a whole number of 4-byte words. */
  lemma {:induction false} PaddedSumAligned(keys: seq<Name>)
    ensures PaddedSum(keys) % 4 == 0
    decreases |keys|
  {
    if |keys| > 0 {
      PaddedSumAligned(keys[..|keys| - 1]);
    }
  }

  /** Offset of record i inside the key table: the count, then the padded records before it. */
  function RecordOffset(keys: seq<Name>, i: nat): nat
    requires i <= |keys|
  {
    2 + PaddedSum(keys[..i])
  }

  /** The key table is its count followed by the padded records, back to back. */
  lemma KeyTableLayout(keys: seq<Name>, values: seq<Value>, start: nat)
    requires KeysFit(keys, values, start)
    ensures ReadU16(KeyTable(keys, values, start), 0) == |keys|
    ensures HoldsAt(KeyTable(keys, values, start), 2, Concat(KeyRecords(keys, values, start)))
  {
    KeyEntriesPackable(keys, values, start);
  }

  /** Record i occupies [RecordOffset(keys, i), + PaddedLength(keys[i])) of the table. */
  lemma KeyTableRecordAt(keys: seq<Name>, values: seq<Value>, start: nat, i: nat)
    requires KeysFit(keys, values, start) && i < |keys|
    ensures HoldsAt(KeyTable(keys, values, start), RecordOffset(keys, i), KeyRecords(keys, values, start)[i])
  {
    var t := KeyTable(keys, values, start);
    var rs := KeyRecords(keys, values, start);
    KeyTableLayout(keys, values, start);
    ConcatSlice(rs, i);
    RecordsLength(rs, keys, i);
    HoldsAtNested(t, 2, Concat(rs), SumLengths(rs[..i]), rs[i], RecordOffset(keys, i));
  }

  /** Record i of the table, on its own, reads back entry i. */
  lemma KeyRecordReads(keys: seq<Name>, values: seq<Value>, start: nat, i: nat)
    requires KeysFit(keys, values, start) && i < |keys|
    ensures RecordAt(KeyRecords(keys, values, start)[i], 0, KeyEntries(keys, values, start + KeysLength(keys))[i])
  {
    KeyEntriesPackable(keys, values, start);
  }

  /**
    Reading record i back from the table gives entry i: the data offset of
    its value (the end of the table plus the values before it), the value's
    length, flags 0, the name length with NUL, the name and the NUL.
   */
  lemma KeyTableRecordFields(keys: seq<Name>, values: seq<Value>, start: nat, i: nat)
    requires KeysFit(keys, values, start) && i < |keys|
    ensures RecordAt(KeyTable(keys, values, start), RecordOffset(keys, i),
                     KeyEntries(keys, values, start + KeysLength(keys))[i])
  {
    KeyTableRecordAt(keys, values, start, i);
    KeyRecordReads(keys, values, start, i);
    RecordAtNested(KeyTable(keys, values, start), RecordOffset(keys, i), KeyRecords(keys, values, start)[i], 0,
                   KeyEntries(keys, values, start + KeysLength(keys))[i], RecordOffset(keys, i));
  }

  /**
    The two passes agree: the first record points exactly at the first byte
    after the table, the offset the first pass ends on.
   */
  lemma KeyTableFirstOffset(keys: seq<Name>, values: seq<Value>, start: nat)
    requires KeysFit(keys, values, start) && |keys| > 0
    ensures RecordOffset(keys, 0) == 2
    ensures RecordAt(KeyTable(keys, values, start), 2,
                     KeyEntries(keys, values, start + |KeyTable(keys, values, start)|)[0])
    ensures KeyEntries(keys, values, start + |KeyTable(keys, values, start)|)[0].offset
         == start + |KeyTable(keys, values, start)|
  {
    assert keys[..0] == [] && values[..0] == [];
    KeyTableRecordFields(keys, values, start, 0);
    KeyTableLength(keys, values, start);
  }

  // ---------------------------------------------------------------------
  // The whole file
  // ---------------------------------------------------------------------

  /** File offset of record i of the key table. */
  function RecordStart(keys: seq<Name>, i: nat): nat
    requires i <= |keys|
  {
    ApplLength + AttrLength + RecordOffset(keys, i)
  }

  /** Every key-table record starts on a 4-byte boundary of the file. */
  lemma RecordStartAligned(keys: seq<Name>, i: nat)
    requires i <= |keys|
    ensures RecordStart(keys, i) % 4 == 0
  {
    PaddedSumAligned(keys[..i]);
  }

  /** The four regions, where they sit, and the length of the whole. */
  lemma EncodeRegions(keys: seq<Name>, values: seq<Value>)
    requires KeysFit(keys, values, ApplLength + AttrLength)
    ensures
      var buf := EncodeSorted(keys, values);
      var l := ComputeLayout(KeysLength(keys), SumLengths(values));
      && |buf| == l.fileLength
      && HoldsAt(buf, 0, PackApplHeader(l))
      && HoldsAt(buf, ApplLength, PackAttrHeader(l))
      && HoldsAt(buf, ApplLength + AttrLength, KeyTable(keys, values, ApplLength + AttrLength))
      && HoldsAt(buf, l.dataOffset, Concat(values))
  {
    var l := ComputeLayout(KeysLength(keys), SumLengths(values));
    KeyTableLength(keys, values, ApplLength + AttrLength);
    HoldsAtParts(PackApplHeader(l), PackAttrHeader(l), KeyTable(keys, values, ApplLength + AttrLength), Concat(values),
                 ApplLength, ApplLength + AttrLength, l.dataOffset);
  }

  /**
    The top-level header: magic and filler, two entries, the Finder Info
    entry (type 9) from the end of this header to the end of the file, the
    Resource Fork entry (type 2) empty at the very end of the file.
   */
  lemma EncodeFileHeader(m: map<Name, Value>)
    requires Encodable(m)
    ensures
      var keys := Names(m);
      var l := ComputeLayout(KeysLength(keys), SumLengths(ValuesOf(m, keys)));
      && ApplHeaderAt(Encode(m), l)
      && l.finderInfoOffset == ApplLength
      && l.finderInfoOffset + l.finderInfoLength == |Encode(m)|
      && l.resourceForkOffset == |Encode(m)| && l.resourceForkLength == 0
  {
    var keys := Names(m);
    var values := ValuesOf(m, keys);
    var l := ComputeLayout(KeysLength(keys), SumLengths(values));
    EncodeRegions(keys, values);
    ApplHeaderNested(Encode(m), PackApplHeader(l), l);
  }

  /**
    The attribute header: "ATTR", the total file length, the data offset
    right after the key table and the data length; the data blob, the
    values concatenated in name order, fills the file from the data offset
    to its end; the key table starts with the number of attributes.
   */
  lemma EncodeAttrHeader(m: map<Name, Value>)
    requires Encodable(m)
    ensures
      var keys := Names(m);
      var values := ValuesOf(m, keys);
      var l := ComputeLayout(KeysLength(keys), SumLengths(values));
      && AttrHeaderAt(Encode(m), ApplLength, l)
      && l.fileLength == |Encode(m)|
      && l.dataOffset == ApplLength + AttrLength + KeysLength(keys)
      && l.dataOffset + l.dataLength == |Encode(m)|
      && HoldsAt(Encode(m), l.dataOffset, Concat(values))
      && ApplLength + AttrLength + 2 <= |Encode(m)|
      && ReadU16(Encode(m), ApplLength + AttrLength) == |m|
  {
    var keys := Names(m);
    var values := ValuesOf(m, keys);
    var l := ComputeLayout(KeysLength(keys), SumLengths(values));
    var t := KeyTable(keys, values, ApplLength + AttrLength);
    EncodeRegions(keys, values);
    AttrHeaderNested(Encode(m), ApplLength, PackAttrHeader(l), l);
    KeyTableLayout(keys, values, ApplLength + AttrLength);
    KeyTableLength(keys, values, ApplLength + AttrLength);
    ReadU16Embedded(Encode(m), ApplLength + AttrLength, t, 0);
  }

  /** File offset of the value of the i-th name: the data offset plus the lengths of the values before it. */
  function ValueOffset(keys: seq<Name>, values: seq<Value>, i: nat): nat
    requires i <= |values|
  {
    ApplLength + AttrLength + KeysLength(keys) + SumLengths(values[..i])
  }

  /**
    Round trip of one attribute, its record: record i of the file's key
    table names the i-th name in sort order, with the offset of its value
    (the data offset plus the lengths of the values before it) and the
    value's length.
   */
  lemma EncodeRecordReadBack(m: map<Name, Value>, i: nat)
    requires Encodable(m) && i < |m|
    ensures
      var keys := Names(m);
      var k := keys[i];
      && k in m
      && RecordAt(Encode(m), RecordStart(keys, i),
                  KeyEntry(ValueOffset(keys, ValuesOf(m, keys), i), |m[k]|, 0, |k| + 1, k))
  {
    var keys := Names(m);
    var values := ValuesOf(m, keys);
    var start := ApplLength + AttrLength;
    var k := keys[i];
    var e := KeyEntry(ValueOffset(keys, values, i), |m[k]|, 0, |k| + 1, k);
    assert KeyEntries(keys, values, start + KeysLength(keys))[i] == e;
    EncodeRegions(keys, values);
    KeyTableRecordFields(keys, values, start, i);
    RecordAtNested(Encode(m), start, KeyTable(keys, values, start), RecordOffset(keys, i), e, RecordStart(keys, i));
  }

  /**
    Round trip of one attribute, its value: the file holds exactly the
    value of the i-th name at the offset its record gives.
   */
  lemma EncodeValueReadBack(m: map<Name, Value>, i: nat)
    requires Encodable(m) && i < |m|
    ensures
      var keys := Names(m);
      var k := keys[i];
      && k in m
      && HoldsAt(Encode(m), ValueOffset(keys, ValuesOf(m, keys), i), m[k])
  {
    var keys := Names(m);
    var values := ValuesOf(m, keys);
    var l := ComputeLayout(KeysLength(keys), SumLengths(values));
    EncodeRegions(keys, values);
    ConcatSlice(values, i);
    HoldsAtNested(Encode(m), l.dataOffset, Concat(values), SumLengths(values[..i]), values[i], ValueOffset(keys, values, i));
    assert values[i] == m[keys[i]];
  }

  /**
    End-to-end round trip, as a reader of the file performs it: take the
    offset and the length stored in record i of the key table, and the
    bytes of the file in that range are exactly the value of the i-th name.
   */
  lemma EncodeRoundTrip(m: map<Name, Value>, i: nat)
    requires Encodable(m) && i < |m|
    ensures Names(m)[i] in m
    ensures RecordValue(Encode(m), RecordStart(Names(m), i)) == Some(m[Names(m)[i]])
  {
    var keys := Names(m);
    var values := ValuesOf(m, keys);
    var start := ApplLength + AttrLength;
    var k := keys[i];
    var e := KeyEntry(ValueOffset(keys, values, i), |m[k]|, 0, |k| + 1, k);
    assert KeyEntries(keys, values, start + KeysLength(keys))[i] == e;
    EncodeRegions(keys, values);
    KeyTableRecordFields(keys, values, start, i);
    EncodeValueReadBack(m, i);
    RecordValueNested(Encode(m), start, KeyTable(keys, values, start), RecordOffset(keys, i), e, m[k], RecordStart(keys, i));
  }

  /**
    The records name every attribute exactly once, in strictly ascending
    order: record i holds Names(m)[i] (EncodeRecordReadBack), and these are
    the keys of `m`, sorted.
   */
  lemma EncodeNamesSorted(m: map<Name, Value>)
    ensures |Names(m)| == |m|
    ensures forall k :: k in Names(m) <==> k in m
    ensures forall i, j :: 0 <= i < j < |m| ==> LexLt(Names(m)[i], Names(m)[j])
  {
    SortedKeysAscending(m.Keys);
  }

  /**
    A missing or empty attribute set gives a 120-byte file: both headers
    and a count of 0; the data is empty and starts at the end of the file.
   */
  lemma EncodeEmpty()
    ensures Encodable(map[])
    ensures
      var buf := Encode(map[]);
      var l := ComputeLayout(2, 0);
      && |buf| == ApplLength + AttrLength + 2 == 120
      && AttrHeaderAt(buf, ApplLength, l)
      && l.fileLength == 120 && l.dataOffset == 120 && l.dataLength == 0
      && ReadU16(buf, ApplLength + AttrLength) == 0
  {
    EmptyEncodable();
    var empty: map<Name, Value> := map[];
    var keys := Names(empty);
    assert keys == [];
    var values := ValuesOf(empty, keys);
    assert values == [];
    EncodeAttrHeader(empty);
  }
}
