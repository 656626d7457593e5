/** Where things are in the bytes of the file: the engine's own rows, read by the columns of their tables. */
module Layouts {
  import opened Bytes
  import opened PageRows
  import opened StorageModel
  import opened ListHeads
  import opened RowFormat
  import opened Catalog
  import opened Tables
  import opened Schemas

  /** Numbers are stored with the low byte first. */
  lemma LowByteFirst(b: seq<byte>)
    ensures |b| == 2 ==> U16(b) == b[0] as nat + 0x100 * b[1] as nat
    ensures |b| == 4 ==> U32(b) == b[0] as nat + 0x100 * b[1] as nat + 0x1_0000 * b[2] as nat + 0x100_0000 * b[3] as nat
  {
    hide Num;
    forall i | 0 <= i < |b| ensures Num(b[i]) == b[i] as nat {
      NumIs(b[i]);
    }
  }

  lemma NumIs(b: byte)
    ensures Num(b) == b as nat
  {
  }

  /** What the engine reads of a table record is in the columns of the table of tables. */
  lemma RecordColumns(r: Row)
    requires |r| == TABLE_RECORD_SIZE
    ensures var f := TablesFields();
      && RowSize(f) == |r| && End(f, 0) == 32 && End(f, 1) == 34 && End(f, 2) == 36 && End(f, 3) == 38 && End(f, 4) == 42
      && TableName(r) == CString(Piece(f, r, 0)) && TableId(r) == U16(Piece(f, r, 1)) && TableFieldsNumber(r) == U16(Piece(f, r, 2))
      && TableScale(r) == U16(Piece(f, r, 3)) && TableRowSize(r) == U32(Piece(f, r, 4))
  {
    hide U16, U32, CString;
    FixedSizes(1);
    TablesOffsets();
  }

  /** The list heads are in the last two columns, and the others do not change with them. */
  lemma HeadColumns(r: Row, t: Tab)
    requires |r| == TABLE_RECORD_SIZE
    ensures var f := TablesFields(); var s := WithHeads(r, t);
      && End(f, 5) == 46 && End(f, 6) == |s|
      && U32(Piece(f, s, 5)) == t.firstFree % 0x1_0000_0000 && U32(Piece(f, s, 6)) == t.firstFull % 0x1_0000_0000
      && forall i :: 0 <= i < 5 ==> End(f, i) <= |s| && Piece(f, s, i) == Piece(f, r, i)
  {
    hide U32, WithHeads, TablesFields;
    TablesOffsets();
    var f, s := TablesFields(), WithHeads(r, t);
    assert Piece(f, s, 5) == s[FIRST_FREE_AT..FIRST_FULL_AT] && Piece(f, s, 6) == s[FIRST_FULL_AT..];
    forall i | 0 <= i < 5 ensures End(f, i) <= |s| && Piece(f, s, i) == Piece(f, r, i) {
      OffsetGrows(f, i, i + 1);
      OffsetGrows(f, i + 1, 5);
      SamePart(r, s, Offset(f, i), End(f, i));
    }
  }

  lemma SamePart(r: Row, s: Row, a: nat, b: nat)
    requires a <= b <= FIRST_FREE_AT <= |r| && FIRST_FREE_AT <= |s| && r[..FIRST_FREE_AT] == s[..FIRST_FREE_AT]
    ensures r[a..b] == s[a..b]
  {
    forall j | a <= j < b ensures r[j] == s[j] {
      assert r[..FIRST_FREE_AT][j] == s[..FIRST_FREE_AT][j];
    }
  }

  lemma TablesOffsets()
    ensures var f := TablesFields();
      && |f| == 7 && Offset(f, 0) == 0 && Offset(f, 1) == 32 && Offset(f, 2) == 34 && Offset(f, 3) == 36 && Offset(f, 4) == 38
      && Offset(f, 5) == 42 && Offset(f, 6) == 46 && Offset(f, 7) == 50
  {
    var f := TablesFields();
    assert Offset(f, 1) == 32;
    assert Offset(f, 2) == 34;
    assert Offset(f, 3) == 36;
    assert Offset(f, 4) == 38;
    assert Offset(f, 5) == 42;
    assert Offset(f, 6) == 46;
  }

  /** The row of the free-page table for an extent has its page and its size in the columns of that table. */
  lemma FreeRowColumns(page: nat, scale: nat)
    requires page < 0x1_0000_0000 && scale < 0x1_0000
    ensures var f := FreePagesFields(); var r := EncodeFree(page, scale);
      && f[0].name == PAGE_IND && f[1].name == PAGE_SCALE && End(f, 0) == 4 && End(f, 1) == |r|
      && Piece(f, r, 0) == EncodeU32(page) && Piece(f, r, 1) == EncodeU16(scale)
  {
    hide U16, U32, EncodeU16, EncodeU32;
    var f, r := FreePagesFields(), EncodeFree(page, scale);
    assert Offset(f, 1) == 4 && Offset(f, 2) == 6;
    assert r[0..4] == EncodeU32(page) && r[4..6] == EncodeU16(scale);
  }

  /** The numbers of the types, from `TableDatatype`; a number stands for its type only. */
  lemma TypeNumbers(t: FieldType)
    ensures TypeOf(TypeCode(t)) == t
    ensures [Int32, Float, Bool, Str, Byte, Chars, Chars, UInt32, UInt16][TypeCode(t) as nat - 1] == t && TypeCode(t) != 6
  {
  }
}
