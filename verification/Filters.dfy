/** Filter trees over column values, and what they mean. */
module Filters {
  import opened Common
  import opened Bytes
  import opened PageRows
  import opened StorageModel
  import opened StorageFrames
  import opened CursorModel
  import opened TableContents
  import opened TableMap
  import opened RowFormat
  import opened StringStore
  import opened Tables
  import opened Catalog
  import opened Comparison
  import opened Databases
  import opened RowsIterators
  import opened ClientLoops
  import opened Nesting

  /** A null pointer in the tree stands for no condition. */
  datatype FilterNode =
    | Null
    | And(l: FilterNode, r: FilterNode)
    | Or(l: FilterNode, r: FilterNode)
    | Literal(ftype: FieldType, ind1: nat, value: Value, predicate': Predicate, switchOrder: bool)
    | Variable(ftype: FieldType, ind1: nat, ind2: nat, predicate': Predicate)
    | AlwaysTrue
    | AlwaysFalse

  /** The row has the columns that the tree compares, and the comparisons have a meaning. */
  predicate Fits(n: FilterNode, row: seq<Value>) {
    match n
    case And(l, r) => Fits(l, row) && Fits(r, row)
    case Or(l, r) => Fits(l, row) && Fits(r, row)
    case Literal(t, i, x, p, _) => i < |row| && Comparable(t, row[i]) && Comparable(t, x) && Meant(p, t)
    case Variable(t, i, j, p) => i < |row| && j < |row| && Comparable(t, row[i]) && Comparable(t, row[j]) && Meant(p, t)
    case _ => true
  }

  /** `check_filters` */
  function CheckFilters(n: FilterNode, row: seq<Value>): bool
    requires Fits(n, row)
  {
    match n
    case Null => true
    case And(l, r) => CheckFilters(l, row) && CheckFilters(r, row)
    case Or(l, r) => CheckFilters(l, row) || CheckFilters(r, row)
    case Literal(t, i, x, p, switch) => if switch then Test(p, t, x, row[i]) else Test(p, t, row[i], x)
    case Variable(t, i, j, p) => Test(p, t, row[i], row[j])
    case AlwaysTrue => true
    case AlwaysFalse => false
  }

  /** The first column of that name, with its type. */
  function FindColumn(fields: Fields, name: seq<byte>, from: nat): (i: Option<nat>)
    requires from <= |fields|
    ensures i.Some? ==> from <= i.value < |fields| && fields[i.value].name == name
    ensures i.Some? ==> forall j :: from <= j < i.value ==> fields[j].name != name
    ensures i == None ==> forall j :: from <= j < |fields| ==> fields[j].name != name
    decreases |fields| - from
  {
    if from == |fields| then None
    else if fields[from].name == name then Some(from) else FindColumn(fields, name, from + 1)
  }

  /** `create_filter_node_l`: a column compared with a value, or a null pointer if there is no such column. */
  function LiteralNode(fields: Fields, rowOffset: nat, p: Predicate, column: seq<byte>, x: Value, switch: bool): FilterNode {
    match FindColumn(fields, column, 0)
    case None => Null
    case Some(i) => Literal(fields[i].ftype, rowOffset + i, x, p, switch)
  }

  /** `create_filter_node_v`: two columns of the same type. */
  function VariableNode(fields1: Fields, offset1: nat, fields2: Fields, offset2: nat, p: Predicate, column1: seq<byte>, column2: seq<byte>): FilterNode {
    match (FindColumn(fields1, column1, 0), FindColumn(fields2, column2, 0))
    case (Some(i), Some(j)) =>
      if fields1[i].ftype == fields2[j].ftype then Variable(fields1[i].ftype, offset1 + i, offset2 + j, p) else Null
    case _ => Null
  }

  /** `create_filter_node_ll`: two values, compared at once. */
  function PredefinedNode(p: Predicate, t: FieldType, x: Value, y: Value): FilterNode
    requires Comparable(t, x) && Comparable(t, y) && Meant(p, t)
  {
    if Test(p, t, x, y) then AlwaysTrue else AlwaysFalse
  }

  /** `rows_iterator_add_filter` */
  function AddFilter(n: FilterNode, fields: Fields, rowOffset: nat, p: Predicate, column: seq<byte>, x: Value): FilterNode {
    var leaf := LiteralNode(fields, rowOffset, p, column, x, false);
    if n == Null then leaf else And(n, leaf)
  }

  // ---------------------------------------------------------------- meaning

  /** A comparison with the operands switched is the converse comparison. */
  lemma Switched(t: FieldType, i: nat, x: Value, p: Predicate, row: seq<Value>)
    requires Fits(Literal(t, i, x, p, true), row)
    ensures Fits(Literal(t, i, x, Converse(p), false), row)
    ensures CheckFilters(Literal(t, i, x, p, true), row) == CheckFilters(Literal(t, i, x, Converse(p), false), row)
  {
    hide Test, Comparable;
    ConverseMeans(p, t, x, row[i]);
  }

  /** Adding a filter narrows the condition by exactly that comparison. */
  lemma AddedNarrows(n: FilterNode, fields: Fields, offset: nat, p: Predicate, column: seq<byte>, x: Value, row: seq<Value>)
    requires Fits(n, row) && Fits(LiteralNode(fields, offset, p, column, x, false), row)
    ensures Fits(AddFilter(n, fields, offset, p, column, x), row)
    ensures CheckFilters(AddFilter(n, fields, offset, p, column, x), row) <==>
      CheckFilters(n, row) && CheckFilters(LiteralNode(fields, offset, p, column, x, false), row)
  {
    hide Compare, Comparable, Test, LiteralNode;
  }

  /** What a filter tree is as the condition of a search. */
  ghost function Meaning(n: FilterNode): Condition {
    (row: seq<Value>) => Fits(n, row) && CheckFilters(n, row)
  }

  /** The tree has what it compares in every row of the table. */
  ghost predicate FitsAll(db: Database, t: nat, n: FilterNode)
    reads db, db.st
  {
    forall k :: k in db.Tuples() && db.Tuples()[k].table == t ==> Fits(n, Plain(db.Tuples()[k].values))
  }

  /** A search meets, for "or", the rows that either part meets, and for "and", those that both meet. */
  lemma PartsMeet(db: Database, t: nat, fields: Fields, l: FilterNode, r: FilterNode)
    requires db.Valid() && t in db.schemes && db.schemes[t] == fields && FitsAll(db, t, l) && FitsAll(db, t, r)
    ensures ListId(t, false) in db.st.lists && ListId(t, true) in db.st.lists
    ensures forall k: Key :: k in KeysMet(db, t, fields, Meaning(Or(l, r))) <==>
      k in KeysMet(db, t, fields, Meaning(l)) || k in KeysMet(db, t, fields, Meaning(r))
    ensures forall k: Key :: k in KeysMet(db, t, fields, Meaning(And(l, r))) <==>
      k in KeysMet(db, t, fields, Meaning(l)) && k in KeysMet(db, t, fields, Meaning(r))
  {
    hide Database.Valid, Database.Tuples, KeysMet, Plain;
    HitsAreTuples(db, t, fields, Meaning(l));
    HitsAreTuples(db, t, fields, Meaning(r));
    HitsAreTuples(db, t, fields, Meaning(Or(l, r)));
    HitsAreTuples(db, t, fields, Meaning(And(l, r)));
  }

  /**
   * A comparison of an integer column with a number, built for a cursor whose columns start at
   * `offset` of the combined row: it compares that column, and with the operands switched the
   * number with it.
   */
  lemma LiteralCompares(fields: Fields, offset: nat, i: nat, p: Predicate, x: int, switch: bool, row: seq<Value>, y: int)
    requires i < |fields| && (forall j :: 0 <= j < i ==> fields[j].name != fields[i].name) && Integer(fields[i].ftype)
    requires InRange(fields[i].ftype, x) && InRange(fields[i].ftype, y)
    requires offset + i < |row| && row[offset + i] == Raw(Encode(fields[i].ftype, y))
    ensures var n := LiteralNode(fields, offset, p, fields[i].name, Raw(Encode(fields[i].ftype, x)), switch);
      Meaning(n)(row) <==> if switch then Related(p, x, y) else Related(p, y, x)
  {
    hide Encode, InRange, Test, Related, Comparable, FindColumn, Meant;
    var t := fields[i].ftype;
    assert FindColumn(fields, fields[i].name, 0) == Some(i);
    IntegersCompare(p, t, Raw(Encode(t, y)), Raw(Encode(t, x)), y, x);
    IntegersCompare(p, t, Raw(Encode(t, x)), Raw(Encode(t, y)), x, y);
  }

  /** A comparison of two numbers lets all rows pass, or none. */
  lemma PredefinedCompares(t: FieldType, p: Predicate, x: int, y: int, row: seq<Value>)
    requires Integer(t) && InRange(t, x) && InRange(t, y)
    ensures Comparable(t, Raw(Encode(t, x))) && Comparable(t, Raw(Encode(t, y))) && Meant(p, t)
    ensures Meaning(PredefinedNode(p, t, Raw(Encode(t, x)), Raw(Encode(t, y))))(row) <==> Related(p, x, y)
  {
    hide Encode, InRange, Test, Related, Comparable, Meant;
    IntegersCompare(p, t, Raw(Encode(t, x)), Raw(Encode(t, y)), x, y);
  }

  /** On a string column, equality or inequality with a string. */
  lemma TextCompares(fields: Fields, offset: nat, i: nat, x: seq<byte>, switch: bool, row: seq<Value>, y: seq<byte>)
    requires i < |fields| && (forall j :: 0 <= j < i ==> fields[j].name != fields[i].name) && Textual(fields[i].ftype)
    requires offset + i < |row| && row[offset + i] == Text(y)
    ensures Meaning(LiteralNode(fields, offset, Equals, fields[i].name, Text(x), switch))(row) <==> x == y
    ensures Meaning(LiteralNode(fields, offset, NotEquals, fields[i].name, Text(x), switch))(row) <==> x != y
  {
    hide Test, FindColumn;
    var t := fields[i].ftype;
    assert FindColumn(fields, fields[i].name, 0) == Some(i);
    StringsCompare(t, x, y);
    StringsCompare(t, y, x);
  }

  /** A comparison with a column that does not exist is no condition at all. */
  lemma MissingColumn(fields: Fields, offset: nat, p: Predicate, column: seq<byte>, x: Value, switch: bool, row: seq<Value>)
    requires forall i :: 0 <= i < |fields| ==> fields[i].name != column
    ensures var n := LiteralNode(fields, offset, p, column, x, switch); Fits(n, row) && CheckFilters(n, row)
  {
  }

  /** The filter that a join puts on its second cursor lets exactly the rows with the equal column pass. */
  lemma JoinFilterMeans(fields: Fields, j: nat, column: seq<byte>, outer: seq<Value>, i: nat, inner: seq<Value>)
    requires FindColumn(fields, column, 0) == Some(j) && j < |fields| && j < |inner| && i < |outer|
    requires Comparable(fields[j].ftype, inner[j]) && Comparable(fields[j].ftype, outer[i])
    ensures Fits(AddFilter(Null, fields, 0, Equals, column, outer[i]), inner)
    ensures CheckFilters(AddFilter(Null, fields, 0, Equals, column, outer[i]), inner) <==>
      EqualColumns(i, j, fields[j].ftype)(outer)(inner)
  {
    hide FindColumn, Comparable, Test, LiteralNode;
    FoundColumn(fields, j, Equals, column, outer[i], inner);
    AddedNarrows(Null, fields, 0, Equals, column, outer[i], inner);
  }

  /** A column-column filter compares exactly the two named columns, and is no condition when one is missing or the types differ. */
  lemma VariableMeans(fields1: Fields, offset1: nat, fields2: Fields, offset2: nat, p: Predicate, column1: seq<byte>, column2: seq<byte>, row: seq<Value>)
    requires Fits(VariableNode(fields1, offset1, fields2, offset2, p, column1, column2), row)
    ensures CheckFilters(VariableNode(fields1, offset1, fields2, offset2, p, column1, column2), row) <==>
      forall i, j, t :: Named(fields1, i, column1, t) && Named(fields2, j, column2, t)
        && offset1 + i < |row| && offset2 + j < |row| && Comparable(t, row[offset1 + i]) && Comparable(t, row[offset2 + j]) && Meant(p, t)
        ==> Test(p, t, row[offset1 + i], row[offset2 + j])
  {
    hide Comparable, Test, FindColumn;
    var n := VariableNode(fields1, offset1, fields2, offset2, p, column1, column2);
    if n.Variable? {
      var i, j := FindColumn(fields1, column1, 0).value, FindColumn(fields2, column2, 0).value;
      assert Named(fields1, i, column1, fields1[i].ftype) && Named(fields2, j, column2, fields1[i].ftype);
    }
  }

  /** Column `i` is the first of that name, and of type `t`. */
  ghost predicate Named(fields: Fields, i: nat, column: seq<byte>, t: FieldType) {
    FindColumn(fields, column, 0) == Some(i) && i < |fields| && fields[i].ftype == t
  }

  // ---------------------------------------------------------------- the searches of the table of tables

  /** The filter that `get_heap_table` builds. */
  function HeapSearch(len: nat): FilterNode
    requires len < 0x1_0000
  {
    var byName := AddFilter(Null, TablesFields(), 0, Equals, NAME, Text(HEAP_TABLES_NAME));
    var atLeast := AddFilter(byName, TablesFields(), 0, GreaterEq, ROW_SIZE, Raw(EncodeU32(2 + len + 2)));
    AddFilter(atLeast, TablesFields(), 0, Less, ROW_SIZE, Raw(EncodeU32(2 + len + 2 + HEAP_ROW_SIZE_STEP)))
  }

  /** The filter that `remove_str_from_heap` builds. */
  function IdSearch(id: nat): FilterNode
    requires id < 0x1_0000
  {
    AddFilter(Null, TablesFields(), 0, Equals, TABLE_ID, Raw(EncodeU16(id)))
  }

  /** On the columns of a row of the table of tables, they are the conditions by name, size and id. */
  lemma SearchesMean(pages: map<nat, Page>, row: Row, len: nat, id: nat)
    requires |row| == TABLE_RECORD_SIZE && len < 0x1_0000 && id < 0x1_0000
    ensures var s := ReadFields(pages, TablesFields(), row);
      && Fits(HeapSearch(len), s) && Fits(IdSearch(id), s)
      && (CheckFilters(HeapSearch(len), s) <==> TableName(row) == HEAP_TABLES_NAME && InWindow(len, TableRowSize(row)))
      && (CheckFilters(IdSearch(id), s) <==> TableId(row) == id)
  {
    hide U16, U32, EncodeU16, EncodeU32, CString, ReadFields, TablesFields, FindColumn, Test, LiteralNode, Fits,
         CheckFilters, AddFilter, Comparable;
    var f, s := TablesFields(), ReadFields(pages, TablesFields(), row);
    var from, to := Raw(EncodeU32(2 + len + 2)), Raw(EncodeU32(2 + len + 2 + HEAP_ROW_SIZE_STEP));
    var byName := AddFilter(Null, f, 0, Equals, NAME, Text(HEAP_TABLES_NAME));
    TableColumns(pages, row);
    ColumnsFound();
    Raws(row, len, id);
    FoundColumn(f, 0, Equals, NAME, Text(HEAP_TABLES_NAME), s);
    FoundColumn(f, 4, GreaterEq, ROW_SIZE, from, s);
    FoundColumn(f, 4, Less, ROW_SIZE, to, s);
    FoundColumn(f, 1, Equals, TABLE_ID, Raw(EncodeU16(id)), s);
    AddedNarrows(Null, f, 0, Equals, NAME, Text(HEAP_TABLES_NAME), s);
    AddedNarrows(byName, f, 0, GreaterEq, ROW_SIZE, from, s);
    AddedNarrows(AddFilter(byName, f, 0, GreaterEq, ROW_SIZE, from), f, 0, Less, ROW_SIZE, to, s);
    AddedNarrows(Null, f, 0, Equals, TABLE_ID, Raw(EncodeU16(id)), s);
    PredicatesMean(UInt16, s[1], Raw(EncodeU16(id)));
    IdIs(row[32..34], id);
    PredicatesMean(UInt32, s[4], from);
    PredicatesMean(UInt32, s[4], to);
  }

  /** The condition of the search for a heap table, on the rows of the table of tables. */
  ghost function HeapFilter(pages: map<nat, Page>, len: nat): Filter
    requires len < 0x1_0000
  {
    (row: Row) => |row| == TABLE_RECORD_SIZE && Fits(HeapSearch(len), ReadFields(pages, TablesFields(), row))
                  && CheckFilters(HeapSearch(len), ReadFields(pages, TablesFields(), row))
  }

  lemma HeapFilterMeans(pages: map<nat, Page>, row: Row, len: nat)
    requires |row| == TABLE_RECORD_SIZE && len < 0x1_0000
    ensures HeapFilter(pages, len)(row) <==> TableName(row) == HEAP_TABLES_NAME && InWindow(len, TableRowSize(row))
  {
    hide TableName, TableRowSize, HeapSearch, CheckFilters, Fits, ReadFields, TablesFields, InWindow;
    SearchesMean(pages, row, len, 0);
  }

  /** A file in order, with a table of that name. */
  ghost predicate Clashes(v: View, k: Key) {
    && Inv(v, 0) && TABLES in v.tabs && v.tabs[TABLES].rowSize == TABLE_RECORD_SIZE
    && k in Contents(v) && Contents(v)[k].table == TABLES && TableName(Contents(v)[k].row) == HEAP_TABLES_NAME
  }

  /** The search for a heap table for strings of this length meets the row at `k`. */
  ghost predicate Met(v: View, k: Key, len: nat) {
    && 1 <= len <= MAX_HEAP_STRING && ListId(TABLES, false) in v.lists && ListId(TABLES, true) in v.lists
    && k in TableHits(v, TABLES, HeapFilter(v.pages, len))
  }

  /** A heap table in the window. */
  ghost predicate Searched(v: View, l: Key, len: nat) {
    && l in Contents(v) && Contents(v)[l].table == TABLES
    && TableName(Contents(v)[l].row) == HEAP_TABLES_NAME && InWindow(len, TableRowSize(Contents(v)[l].row))
  }

  /** There is no other table of that name with a row size in the window of the search. */
  ghost predicate Alone(v: View, k: Key, len: nat) {
    forall l :: Searched(v, l, len) ==> l == k
  }

  /**
   * A table of a client with the name of the heap tables: the search for a heap table meets it for
   * some string exactly if its row size is between 5 and 65553; it is the row at which the search
   * stops if there is no other heap table in the window; and its rows have another layout than the
   * heap rows of that string exactly if the row size is not 4 modulo 50.
   */
  lemma NameClash(v: View, k: Key)
    requires Clashes(v, k) && k in Contents(v)
    ensures ListId(TABLES, false) in v.lists && ListId(TABLES, true) in v.lists
    ensures (exists len :: Met(v, k, len)) <==> 5 <= TableRowSize(Contents(v)[k].row) <= 65553
    ensures forall len :: Met(v, k, len) && Alone(v, k, len) ==> TableHits(v, TABLES, HeapFilter(v.pages, len)) == [k]
    ensures forall len :: Met(v, k, len) ==>
      (TableRowSize(Contents(v)[k].row) == HeapRowSize(len) <==> TableRowSize(Contents(v)[k].row) % HEAP_ROW_SIZE_STEP == 4)
  {
    hide TableName, TableRowSize, HeapFilter, HeapRowSize, InWindow, Contents, TableHits, Clashes;
    ClashRow(v, k);
    var size := TableRowSize(Contents(v)[k].row);
    forall len: nat | 1 <= len <= MAX_HEAP_STRING
      ensures Met(v, k, len) <==> InWindow(len, size)
      ensures Met(v, k, len) && Alone(v, k, len) ==> TableHits(v, TABLES, HeapFilter(v.pages, len)) == [k]
    {
      HitsOfSearch(v, k, len);
    }
    SizesSearched(size);
    forall len | Met(v, k, len) ensures size == HeapRowSize(len) <==> size % HEAP_ROW_SIZE_STEP == 4 {
      LayoutDiffers(len, size);
    }
  }

  lemma HitOfSearch(v: View, l: Key, len: nat)
    requires Inv(v, 0) && TABLES in v.tabs && v.tabs[TABLES].rowSize == TABLE_RECORD_SIZE && len < 0x1_0000
    ensures RowAt(v, TABLES, l.page, l.row).Some? && HeapFilter(v.pages, len)(RowAt(v, TABLES, l.page, l.row).value) <==> Searched(v, l, len)
  {
    hide TableName, TableRowSize, HeapFilter, InWindow, Contents, Inv, RowAt, CellAt;
    if RowAt(v, TABLES, l.page, l.row).Some? {
      RowIsCell(v, TABLES, l);
    }
    if l in Contents(v) && Contents(v)[l].table == TABLES {
      CellIsRow(v, TABLES, l, Contents(v)[l].row);
      CellFits(v, l);
      HeapFilterMeans(v.pages, Contents(v)[l].row, len);
    }
  }

  lemma ClashRow(v: View, k: Key)
    requires Clashes(v, k)
    ensures k in Contents(v) && ListId(TABLES, false) in v.lists && ListId(TABLES, true) in v.lists
  {
    hide Contents, Inv, TableName;
    InvParts(v, 0);
    TableHitsExact(v, TABLES, (row: Row) => true);
  }

  /** What that search meets. */
  lemma HitsOfSearch(v: View, k: Key, len: nat)
    requires Clashes(v, k) && k in Contents(v) && len < 0x1_0000
    ensures ListId(TABLES, false) in v.lists && ListId(TABLES, true) in v.lists
    ensures k in TableHits(v, TABLES, HeapFilter(v.pages, len)) <==> InWindow(len, TableRowSize(Contents(v)[k].row))
    ensures k in TableHits(v, TABLES, HeapFilter(v.pages, len)) && Alone(v, k, len) ==>
      TableHits(v, TABLES, HeapFilter(v.pages, len)) == [k]
  {
    hide TableName, TableRowSize, HeapFilter, InWindow, Contents, TableHits, Inv, RowAt, CellAt;
    var f := HeapFilter(v.pages, len);
    InvParts(v, 0);
    TableHitsExact(v, TABLES, f);
    forall l: Key ensures l in TableHits(v, TABLES, f) <==> Searched(v, l, len) {
      HitOfSearch(v, l, len);
    }
    OnlyOne(TableHits(v, TABLES, f), k);
  }

  lemma OnlyOne(s: seq<Key>, k: Key)
    requires Distinct(s)
    ensures k in s && (forall l :: l in s ==> l == k) ==> s == [k]
  {
    if |s| > 1 {
      assert s[0] in s && s[1] in s;
    }
  }

  lemma SixtyBytes()
    ensures InWindow(10, 60) && HeapRowSize(10) == 54
  {
  }

  /** With 60 bytes a row the table is taken for a heap table for strings of 10 bytes, whose rows have 54. */
  lemma NameClashExample(v: View, k: Key)
    requires Clashes(v, k) && k in Contents(v) && TableRowSize(Contents(v)[k].row) == 60 && Alone(v, k, 10)
    ensures ListId(TABLES, false) in v.lists && ListId(TABLES, true) in v.lists
    ensures TableHits(v, TABLES, HeapFilter(v.pages, 10)) == [k] && HeapRowSize(10) == 54
  {
    hide *;
    SixtyBytes();
    HitsOfSearch(v, k, 10);
  }

  lemma IdIs(b: seq<byte>, id: nat)
    requires |b| == 2 && id < 0x1_0000
    ensures b == EncodeU16(id) <==> U16(b) == id
  {
    hide U16, EncodeU16;
    if U16(b) == id {
      U16Once(b, EncodeU16(id));
    }
  }

  lemma Raws(row: Row, len: nat, id: nat)
    requires |row| == TABLE_RECORD_SIZE && len < 0x1_0000 && id < 0x1_0000
    ensures Fits(Null, []) && CheckFilters(Null, [])
    ensures Comparable(UInt16, Raw(row[32..34])) && Comparable(UInt16, Raw(EncodeU16(id)))
    ensures Comparable(UInt32, Raw(row[38..42]))
    ensures Comparable(UInt32, Raw(EncodeU32(2 + len + 2))) && Comparable(UInt32, Raw(EncodeU32(2 + len + 2 + HEAP_ROW_SIZE_STEP)))
    ensures Comparable(Chars, Text(TableName(row))) && Comparable(Chars, Text(HEAP_TABLES_NAME))
    ensures Test(Equals, Chars, Text(TableName(row)), Text(HEAP_TABLES_NAME)) <==> TableName(row) == HEAP_TABLES_NAME
  {
    hide U16, U32, EncodeU16, EncodeU32, CString;
  }

  lemma FoundColumn(fields: Fields, i: nat, p: Predicate, column: seq<byte>, x: Value, row: seq<Value>)
    requires FindColumn(fields, column, 0) == Some(i) && i < |fields| && i < |row|
    requires Comparable(fields[i].ftype, row[i]) && Comparable(fields[i].ftype, x) && Meant(p, fields[i].ftype)
    ensures Fits(LiteralNode(fields, 0, p, column, x, false), row) && Fits(Null, row) && CheckFilters(Null, row)
    ensures CheckFilters(LiteralNode(fields, 0, p, column, x, false), row) == Test(p, fields[i].ftype, row[i], x)
  {
    hide Comparable, Test, FindColumn;
  }

  lemma ColumnsFound()
    ensures FindColumn(TablesFields(), NAME, 0) == Some(0) && FindColumn(TablesFields(), TABLE_ID, 0) == Some(1)
    ensures FindColumn(TablesFields(), ROW_SIZE, 0) == Some(4)
    ensures TablesFields()[0].ftype == Chars && TablesFields()[1].ftype == UInt16 && TablesFields()[4].ftype == UInt32
  {
    hide FindColumn;
    var f := TablesFields();
    assert f[0].name == NAME && f[1].name == TABLE_ID && f[2].name == FIELDS_N && f[3].name == PAGE_SCALE && f[4].name == ROW_SIZE;
    Names();
    assert FindColumn(f, NAME, 0).Some? && FindColumn(f, TABLE_ID, 0).Some? && FindColumn(f, ROW_SIZE, 0).Some?;
  }

  lemma Names()
    ensures NAME != TABLE_ID && NAME != ROW_SIZE && TABLE_ID != ROW_SIZE && FIELDS_N != ROW_SIZE && PAGE_SCALE != ROW_SIZE
  {
    assert |NAME| == 4 && |TABLE_ID| == |ROW_SIZE| == 8;
    assert ROW_SIZE[0] != TABLE_ID[0] && ROW_SIZE[0] != FIELDS_N[0] && ROW_SIZE[0] != PAGE_SCALE[0];
  }

  lemma TableColumns(pages: map<nat, Page>, row: Row)
    requires |row| == TABLE_RECORD_SIZE
    ensures var s := ReadFields(pages, TablesFields(), row);
      s[0] == Text(TableName(row)) && s[1] == Raw(row[32..34]) && s[4] == Raw(row[38..42])
  {
    hide U16, U32, CString;
    var f := TablesFields();
    assert Offset(f, 0) == 0 && Offset(f, 1) == 32;
    assert Offset(f, 2) == 34;
    assert Offset(f, 3) == 36;
    assert Offset(f, 4) == 38;
    assert Offset(f, 5) == 42;
    assert row[0..32] == row[..32];
  }
}
