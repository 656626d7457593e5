/** How rows are laid out in bytes: columns at running offsets, and the rows of the string heaps. */
module RowFormat {
  import opened Bytes
  import opened PageRows

  // ---------------------------------------------------------------- columns

  datatype FieldType = Int32 | Float | Bool | Str | Byte | Chars | UInt32 | UInt16

  /** `table_field_type_sizes`; the size of a CHARS column is set by hand. */
  function TypeSize(t: FieldType): nat {
    match t
    case Int32 => 4
    case UInt32 => 4
    case UInt16 => 2
    case Float => 4
    case Str => 8
    case Bool => 1
    case Byte => 1
    case Chars => 0
  }

  datatype SchemeItem = SchemeItem(name: seq<byte>, ftype: FieldType, nullable: byte, order: nat, maxSz: nat)

  type Fields = seq<SchemeItem>

  /** Where column `i` starts. */
  function Offset(fields: Fields, i: nat): nat
    requires i <= |fields|
  {
    if i == 0 then 0 else Offset(fields, i - 1) + fields[i - 1].maxSz
  }

  /** Where column `i` ends. */
  function End(fields: Fields, i: nat): (e: nat)
    requires i < |fields|
    ensures e == Offset(fields, i) + fields[i].maxSz
  {
    Offset(fields, i + 1)
  }

  function RowSize(fields: Fields): nat {
    Offset(fields, |fields|)
  }

  lemma {:induction false} OffsetGrows(fields: Fields, i: nat, j: nat)
    requires i <= j <= |fields|
    ensures Offset(fields, i) <= Offset(fields, j)
    decreases j - i
  {
    if i < j {
      OffsetGrows(fields, i, j - 1);
    }
  }

  /** The bytes of column `i`. */
  function Piece(fields: Fields, row: Row, i: nat): (p: seq<byte>)
    requires i < |fields| && End(fields, i) <= |row|
    ensures |p| == fields[i].maxSz
  {
    row[Offset(fields, i)..End(fields, i)]
  }

  /** Writing the next column leaves the earlier ones where they are. */
  lemma AppendPiece(fields: Fields, row: Row, i: nat, piece: seq<byte>)
    requires i < |fields| && |row| == Offset(fields, i) && |piece| == fields[i].maxSz
    ensures |row + piece| == Offset(fields, i + 1)
    ensures End(fields, i) <= |row + piece| && Piece(fields, row + piece, i) == piece
    ensures forall j :: 0 <= j < i ==> End(fields, j) <= |row|
    ensures forall j :: 0 <= j < i ==> Piece(fields, row + piece, j) == Piece(fields, row, j)
  {
    assert (row + piece)[Offset(fields, i)..End(fields, i)] == piece;
    forall j | 0 <= j < i ensures End(fields, j) <= |row| {
      OffsetGrows(fields, j + 1, i);
    }
    forall j | 0 <= j < i ensures Piece(fields, row + piece, j) == Piece(fields, row, j) {
      assert (row + piece)[Offset(fields, j)..End(fields, j)] == row[Offset(fields, j)..End(fields, j)];
    }
  }

  // ---------------------------------------------------------------- character data

  predicate NoNul(s: seq<byte>) {
    forall i :: 0 <= i < |s| ==> s[i] != 0
  }

  /** The string at the start of a buffer, up to its terminator. */
  function CString(b: seq<byte>): seq<byte> {
    if b == [] || b[0] == 0 then [] else [b[0]] + CString(b[1..])
  }

  /** Whatever the bytes behind the terminator are, the string reads back. */
  lemma {:induction false} CStringReads(s: seq<byte>, rest: seq<byte>)
    requires NoNul(s)
    ensures CString(s + [0] + rest) == s
  {
    if s != [] {
      assert (s + [0] + rest)[1..] == s[1..] + [0] + rest;
      CStringReads(s[1..], rest);
    }
  }

  // ---------------------------------------------------------------- string heaps

  const HEAP_ROW_SIZE_STEP: nat := 50

  /** The longest string, terminator included, whose heap row size fits in 16 bits. */
  const MAX_HEAP_STRING: nat := 65500

  /** `get_nearest_heap_size`, in 16 bits. */
  function NearestHeapSize(len: nat): nat {
    ((len / HEAP_ROW_SIZE_STEP + if len % HEAP_ROW_SIZE_STEP > 0 then 1 else 0) * HEAP_ROW_SIZE_STEP) % 0x1_0000
  }

  /** A heap row: string length, string data, table id. */
  function HeapRowSize(len: nat): nat {
    4 + NearestHeapSize(len)
  }

  /** The bounds between which `get_heap_table` searches for a row size. */
  predicate InWindow(len: nat, rowSize: nat) {
    2 + len + 2 <= rowSize < 2 + len + 2 + HEAP_ROW_SIZE_STEP
  }

  /**
   * Among the row sizes that heap tables can have, the window holds exactly one, and it is
   * the one computed from the string length - as long as that computation does not wrap.
   */
  lemma WindowExact(len: nat)
    requires 1 <= len < 0x1_0000
    ensures InWindow(len, HeapRowSize(len)) <==> len <= MAX_HEAP_STRING
    ensures len <= MAX_HEAP_STRING ==>
      forall k: nat :: InWindow(len, 4 + HEAP_ROW_SIZE_STEP * k) <==> 4 + HEAP_ROW_SIZE_STEP * k == HeapRowSize(len)
  {
  }

  /**
   * A string of `n` characters with its terminator, whose length is kept in 16 bits, fits in the
   * heap row made for it exactly up to the longest string; a longer one is copied beyond the row.
   */
  lemma CopyFits(n: nat)
    ensures n + 1 <= NearestHeapSize((n + 1) % 0x1_0000) <==> n + 1 <= MAX_HEAP_STRING
  {
  }

  /** The row sizes that the search meets for some string. */
  lemma SizesSearched(rowSize: nat)
    ensures (exists len :: 1 <= len <= MAX_HEAP_STRING && InWindow(len, rowSize)) <==> 5 <= rowSize <= MAX_HEAP_STRING + 53
  {
    if 5 <= rowSize <= MAX_HEAP_STRING + 53 {
      var len: nat := if rowSize - 4 <= MAX_HEAP_STRING then rowSize - 4 else MAX_HEAP_STRING;
      assert InWindow(len, rowSize);
    }
  }

  /** A row size in the window is that of a heap row for the string exactly if it is one of heap rows at all. */
  lemma LayoutDiffers(len: nat, rowSize: nat)
    requires 1 <= len <= MAX_HEAP_STRING && InWindow(len, rowSize)
    ensures rowSize == HeapRowSize(len) <==> rowSize % HEAP_ROW_SIZE_STEP == 4
  {
    WindowExact(len);
    if rowSize % HEAP_ROW_SIZE_STEP == 4 {
      assert rowSize == 4 + HEAP_ROW_SIZE_STEP * (rowSize / HEAP_ROW_SIZE_STEP);
    }
  }

  /** A row of heap table `id`: the length, the characters, the terminator, whatever follows, the id. */
  function EncodeHeapRow(text: seq<byte>, pad: seq<byte>, id: nat): (r: Row)
    requires |text| + 1 <= MAX_HEAP_STRING && |pad| + |text| + 1 == NearestHeapSize(|text| + 1) && id < 0x1_0000
    ensures |r| == HeapRowSize(|text| + 1)
  {
    EncodeU16(|text| + 1) + (text + [0] + pad) + EncodeU16(id)
  }

  function HeapLength(r: Row): nat {
    if |r| >= 2 then U16(r[..2]) else 0
  }

  /** The string kept in a heap row. */
  function HeapText(r: Row): seq<byte> {
    if 2 + HeapLength(r) <= |r| then CString(r[2..2 + HeapLength(r)]) else []
  }

  /** The id kept behind the string, at the place computed from the length. */
  function HeapTableId(r: Row): nat {
    var at := 2 + NearestHeapSize(HeapLength(r));
    if at + 2 <= |r| then U16(r[at..at + 2]) else 0
  }

  /** A row as `get_heap_table` and its insertion produce it in table `id`. */
  predicate HeapRowOk(r: Row, id: nat) {
    1 <= HeapLength(r) <= MAX_HEAP_STRING && |r| == HeapRowSize(HeapLength(r)) && HeapTableId(r) == id
  }

  lemma HeapRowReads(text: seq<byte>, pad: seq<byte>, id: nat)
    requires NoNul(text)
    requires |text| + 1 <= MAX_HEAP_STRING && |pad| + |text| + 1 == NearestHeapSize(|text| + 1) && id < 0x1_0000
    ensures var r := EncodeHeapRow(text, pad, id);
      HeapRowOk(r, id) && HeapLength(r) == |text| + 1 && HeapText(r) == text
  {
    hide U16, EncodeU16, NearestHeapSize;
    var r := EncodeHeapRow(text, pad, id);
    assert r[..2] == EncodeU16(|text| + 1);
    var at := 2 + NearestHeapSize(|text| + 1);
    assert r[at..at + 2] == EncodeU16(id);
    assert r[2..2 + |text| + 1] == text + [0] + [];
    CStringReads(text, []);
  }
}
