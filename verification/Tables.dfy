/** Table layouts: the sizes of a new table, and the layouts that are fixed in the program. */
module Tables {
  import opened Bytes
  import opened PageLayout
  import opened StorageModel
  import opened RowFormat
  import opened StringStore

  /** Field names in ASCII. */
  const NAME: seq<byte> := [0x6E, 0x61, 0x6D, 0x65]
  const TYPE: seq<byte> := [0x74, 0x79, 0x70, 0x65]
  const NULLABLE: seq<byte> := [0x6E, 0x75, 0x6C, 0x6C, 0x61, 0x62, 0x6C, 0x65]
  const ORDER: seq<byte> := [0x6F, 0x72, 0x64, 0x65, 0x72]
  const TABLE_ID: seq<byte> := [0x74, 0x61, 0x62, 0x6C, 0x65, 0x5F, 0x69, 0x64]
  const PAGE_IND: seq<byte> := [0x70, 0x61, 0x67, 0x65, 0x5F, 0x69, 0x6E, 0x64]
  const PAGE_SCALE: seq<byte> := [0x70, 0x61, 0x67, 0x65, 0x5F, 0x73, 0x63, 0x61, 0x6C, 0x65]
  const FIELDS_N: seq<byte> := [0x66, 0x69, 0x65, 0x6C, 0x64, 0x73, 0x5F, 0x6E]
  const ROW_SIZE: seq<byte> := [0x72, 0x6F, 0x77, 0x5F, 0x73, 0x69, 0x7A, 0x65]
  const FIRST_FREE_PG: seq<byte> := [0x66, 0x69, 0x72, 0x73, 0x74, 0x5F, 0x66, 0x72, 0x65, 0x65, 0x5F, 0x70, 0x67]
  const FIRST_FULL_PG: seq<byte> := [0x66, 0x69, 0x72, 0x73, 0x74, 0x5F, 0x66, 0x75, 0x6C, 0x6C, 0x5F, 0x70, 0x67]
  const SIZE: seq<byte> := [0x73, 0x69, 0x7A, 0x65]
  const DATA: seq<byte> := [0x64, 0x61, 0x74, 0x61]

  /** `insert_scheme_field`: the size follows from the type, except for CHARS. */
  function Field(name: seq<byte>, ftype: FieldType, nullable: byte, order: nat): (f: SchemeItem)
    ensures f.ftype == ftype && f.order == order && f.maxSz == TypeSize(ftype)
  {
    SchemeItem(name, ftype, nullable, order, TypeSize(ftype))
  }

  /** `get_table_of_tables_scheme` */
  function TablesFields(): (s: Fields)
    ensures SchemeOk(s) && |s| == 7
  {
    [Field(NAME, Chars, 0, 0).(maxSz := 32), Field(TABLE_ID, UInt16, 0, 1), Field(FIELDS_N, UInt16, 0, 2), Field(PAGE_SCALE, UInt16, 0, 3),
     Field(ROW_SIZE, UInt32, 0, 4), Field(FIRST_FREE_PG, UInt32, 0, 5), Field(FIRST_FULL_PG, UInt32, 0, 6)]
  }

  /** `get_scheme_table_scheme` */
  function SchemeFields(): (s: Fields)
    ensures SchemeOk(s) && |s| == 5
  {
    [Field(NAME, Str, 0, 0), Field(TYPE, Byte, 0, 1), Field(NULLABLE, Bool, 0, 2), Field(ORDER, UInt16, 0, 3), Field(TABLE_ID, UInt16, 0, 4)]
  }

  /** The layout of the free-page table, from `create_new_storage`. */
  function FreePagesFields(): (s: Fields)
    ensures SchemeOk(s) && |s| == 2
  {
    [Field(PAGE_IND, UInt32, 0, 0), Field(PAGE_SCALE, UInt16, 0, 1)]
  }

  /** `get_heap_table_scheme` */
  function HeapFields(len: nat): (s: Fields)
    ensures SchemeOk(s) && |s| == 3
  {
    [Field(SIZE, UInt16, 0, 0), Field(DATA, Chars, 1, 1).(maxSz := NearestHeapSize(len)), Field(TABLE_ID, UInt16, 0, 2)]
  }

  /** The fixed layouts have the sizes that the engine relies on. */
  lemma FixedSizes(len: nat)
    ensures RowSize(SchemeFields()) == 14 && RowSize(FreePagesFields()) == FREE_ROW_SIZE && RowSize(HeapFields(len)) == HeapRowSize(len)
    ensures RowSize(TablesFields()) == TABLE_RECORD_SIZE
  {
    OffsetStep(TablesFields());
    OffsetStep(SchemeFields());
    OffsetStep(FreePagesFields());
    OffsetStep(HeapFields(len));
  }

  /** Every column has a name. */
  predicate AllNamed(fields: Fields) {
    forall i :: 0 <= i < |fields| ==> fields[i].name != []
  }

  /** Columns as they are declared: numbers and sizes of 16 bits. */
  predicate Declared(fields: Fields) {
    |fields| < 0x1_0000 && forall i :: 0 <= i < |fields| ==> fields[i].maxSz < 0x1_0000
  }

  lemma FixedNames(len: nat)
    ensures AllNamed(SchemeFields()) && AllNamed(FreePagesFields()) && AllNamed(HeapFields(len))
    ensures Declared(SchemeFields()) && Declared(FreePagesFields()) && Declared(HeapFields(len))
  {
  }

  lemma OffsetStep(fields: Fields)
    requires 2 <= |fields| <= 7
    ensures Offset(fields, 2) == fields[0].maxSz + fields[1].maxSz
    ensures |fields| >= 3 ==> Offset(fields, 3) == Offset(fields, 2) + fields[2].maxSz
    ensures |fields| >= 4 ==> Offset(fields, 4) == Offset(fields, 3) + fields[3].maxSz
    ensures |fields| >= 5 ==> Offset(fields, 5) == Offset(fields, 4) + fields[4].maxSz
    ensures |fields| == 7 ==> Offset(fields, 7) == Offset(fields, 5) + fields[5].maxSz + fields[6].maxSz
  {
    assert Offset(fields, 1) == Offset(fields, 0) + fields[0].maxSz;
    assert Offset(fields, 2) == Offset(fields, 1) + fields[1].maxSz;
    assert |fields| == 7 ==> Offset(fields, 6) == Offset(fields, 5) + fields[5].maxSz;
  }

  /** A heap row is a row of that layout: the length, the characters, the id of its table. */
  lemma HeapRowColumns(text: seq<byte>, pad: seq<byte>, id: nat)
    requires |text| + 1 <= MAX_HEAP_STRING && |pad| + |text| + 1 == NearestHeapSize(|text| + 1) && id < 0x1_0000
    ensures var fields := HeapFields(|text| + 1); var r := EncodeHeapRow(text, pad, id);
      && |r| == RowSize(fields) && End(fields, 0) == 2 && End(fields, 1) == |r| - 2 && End(fields, 2) == |r|
      && Piece(fields, r, 0) == EncodeU16(|text| + 1) && Piece(fields, r, 1) == text + [0] + pad && Piece(fields, r, 2) == EncodeU16(id)
  {
    hide U16, EncodeU16, NearestHeapSize;
    var fields := HeapFields(|text| + 1);
    var r := EncodeHeapRow(text, pad, id);
    FixedSizes(|text| + 1);
    OffsetStep(fields);
    assert Offset(fields, 1) == Offset(fields, 0) + 2;
    assert r[0..2] == EncodeU16(|text| + 1);
    assert r[2..|r| - 2] == text + [0] + pad;
    assert r[|r| - 2..|r|] == EncodeU16(id);
  }

  /** The row size cannot wrap: 65535 columns of 65535 bytes are less than 2 to the power 32. */
  lemma {:induction false} SizeBound(fields: Fields, i: nat)
    requires Declared(fields) && i <= |fields|
    ensures Offset(fields, i) <= 0xFFFF * i
  {
    if i > 0 {
      SizeBound(fields, i - 1);
    }
  }

  /** `init_table`: the row size is the sum of the column sizes, the extent the first at which the search ends. */
  method InitTable(fields: Fields) returns (ended: bool, rowSize: nat, scale: nat)
    requires Declared(fields) && AllNamed(fields)
    ensures rowSize == RowSize(fields) && rowSize < 0x1_0000_0000
    ensures ended <==> Stops(rowSize, 0xFFFF)
    ensures ended ==> 1 <= scale < 0x1_0000 && Stops(rowSize, scale) && forall s :: 1 <= s < scale ==> !Stops(rowSize, s)
    ensures ended && BigEnough(rowSize, scale) <==> rowSize <= MAX_ROW_SIZE
    ensures rowSize <= MAX_ROW_SIZE ==> Least(rowSize, scale)
  {
    hide BigEnough, Stops, Least;
    rowSize := 0;
    for i := 0 to |fields|
      invariant rowSize == Offset(fields, i)
    {
      if fields[i].name == [] {
        assert false;
      }
      SizeBound(fields, i + 1);
      rowSize := (rowSize + fields[i].maxSz) % 0x1_0000_0000;
    }
    SizeBound(fields, |fields|);
    ended, scale := ChooseScale(rowSize);
  }
}
