/** Tables with string columns: rows of client tables and the heap tables that keep their strings. */
module Databases {
  import opened Common
  import opened Bytes
  import opened PageLayout
  import opened PageRows
  import opened StorageModel
  import opened StorageFrames
  import opened CursorModel
  import opened CursorSteps
  import opened Allocation
  import opened Recycling
  import opened ListHeads
  import opened StorageEngine
  import opened TableFrames
  import opened TableContents
  import opened TableMap
  import opened RowFormat
  import opened StringStore
  import opened Tables
  import opened Catalog
  import opened Consistency
  import opened PageCosts

  class Database {
    const st: Storage
    ghost var schemes: map<nat, Fields>
    ghost var heaps: set<nat>
    ghost var uses: map<Key, Use>

    /**
     * A new file: the table of tables with its own row, then the rows of the schema table
     * and of the free-page table. The schema of the free-page table is still to be written.
     */
    constructor ()
      ensures fresh(st) && Valid() && st.tablesNumber == 3 && st.pagesNumber <= 5 && schemes == map[SCHEME_TABLE := SchemeFields()] && heaps == {}
      ensures Tuples() == map[]
    {
      hide *;
      var pad := seq(25, _ => 0 as byte);
      FirstHeadless(pad);
      st := new Storage(FirstRecord(pad));
      schemes, heaps, uses := map[SCHEME_TABLE := SchemeFields()], {}, map[];
      new;
      Bootstrap(pad);
    }

    /** The tables that every file has, after the table of tables. */
    method Bootstrap(pad: seq<byte>)
      requires |pad| == 25 && st.Good() && st.V() == FirstPage(FirstRecord(pad)) && st.tablesNumber == 1
      requires st.homes == map[TABLES := Key(RESERVED_TO_FILE_META, 0)]
      requires schemes == map[SCHEME_TABLE := SchemeFields()] && heaps == {} && uses == map[]
      modifies st
      ensures Valid() && st.tablesNumber == 3 && st.pagesNumber <= 5 && Tuples() == map[]
    {
      hide Storage.OnBytes, AllListed, AtHome, Headless, Inv, NoMoving, Transits, CellAt, Consistent, TableId,
           TableName, TableRowSize, TableScale, TableFieldsNumber, RecordIs, NoLeaks, FirstPage, FirstRecord, TabOk, Least,
           RowSize, SchemeFields, FreePagesFields, Client, Contents, AllNamed, Declared;
      FirstContents(FirstRecord(pad));
      FirstSizes(FirstRecord(pad));
      FixedSizes(1);
      FixedNames(1);
      FirstReads(pad);
      FirstListed(Db(), Key(RESERVED_TO_FILE_META, 0), FirstRecord(pad));
      ghost var a := Db();
      var k1 := PutSchemeTable();
      ghost var b := Db();
      var k2 := PutFreePages();
      ThreePut(a, b, Db(), k1, k2);
      Booted(Db(), st.tabs, Key(RESERVED_TO_FILE_META, 0), k1, k2, FirstRecord(pad), Db()[k1].row, Db()[k2].row);
    }

    /** The schema table, the first after the table of tables. */
    method PutSchemeTable() returns (k: Key)
      requires st.Good() && st.tabs.Keys == {TABLES, FREE_PAGES} && st.tablesNumber == SCHEME_TABLE && st.pagesNumber < 99
      requires AllListed(Db(), st.homes) && AtHome(st.homes) && st.homes.Keys == {TABLES}
      requires st.tabs[TABLES].rowSize == TABLE_RECORD_SIZE && st.tabs[TABLES].scale == 1 && st.tabs[FREE_PAGES].rowSize == FREE_ROW_SIZE
      modifies st
      ensures st.Good() && st.tabs.Keys == {TABLES, FREE_PAGES, SCHEME_TABLE} && st.tablesNumber == FREE_PAGES
      ensures AllListed(Db(), st.homes) && AtHome(st.homes) && st.homes.Keys == {TABLES, SCHEME_TABLE}
      ensures st.pagesNumber <= old(st.pagesNumber) + 1
      ensures st.tabs[TABLES].rowSize == TABLE_RECORD_SIZE && st.tabs[TABLES].scale == 1 && st.tabs[FREE_PAGES].rowSize == FREE_ROW_SIZE
      ensures st.tabs[SCHEME_TABLE].rowSize == 14
      ensures k !in old(Db()) && k in Db() && Db() == old(Db())[k := Cell(TABLES, Db()[k].row)]
      ensures RecordIs(Db()[k].row, SCHEME_TABLE_NAME, SCHEME_TABLE, |SchemeFields()|, st.tabs[SCHEME_TABLE].scale, 14)
    {
      hide Storage.OnBytes, AllListed, AtHome, Headless, Inv, NoMoving, Transits, CellAt, TableId, TableName,
           TableRowSize, TableScale, TableFieldsNumber, TabOk, Least, RowSize, SchemeFields, Contents, AllNamed, Declared;
      FixedSizes(1);
      FixedNames(1);
      var scale;
      scale, k := PutRecord(SCHEME_TABLE_NAME, SCHEME_TABLE, SchemeFields());
      SizedTable(14, scale);
      var t := EnterTable(14, scale, k);
    }

    /** The free-page table; its record stands in for it from the start, and is now mapped. */
    method PutFreePages() returns (k: Key)
      requires st.Good() && st.tabs.Keys == {TABLES, FREE_PAGES, SCHEME_TABLE} && st.tablesNumber == FREE_PAGES && st.pagesNumber < 100
      requires AllListed(Db(), st.homes) && AtHome(st.homes) && st.homes.Keys == {TABLES, SCHEME_TABLE}
      requires st.tabs[TABLES].rowSize == TABLE_RECORD_SIZE && st.tabs[TABLES].scale == 1
      modifies st
      ensures st.Good() && st.tabs.Keys == old(st.tabs.Keys) && forall t :: t in st.tabs ==> st.tabs[t].rowSize == old(st.tabs)[t].rowSize
      ensures AllListed(Db(), st.homes) && AtHome(st.homes) && st.homes.Keys == st.tabs.Keys
      ensures st.pagesNumber <= old(st.pagesNumber) + 1 && st.tablesNumber == old(st.tablesNumber) + 1
      ensures k !in old(Db()) && k in Db() && Db() == old(Db())[k := Cell(TABLES, Db()[k].row)]
      ensures RecordIs(Db()[k].row, FREE_PAGES_NAME, FREE_PAGES, |FreePagesFields()|, st.tabs[FREE_PAGES].scale, RowSize(FreePagesFields()))
      ensures forall t :: t in st.tabs ==> st.tabs[t].scale == old(st.tabs)[t].scale
    {
      hide Storage.OnBytes, AllListed, AtHome, Headless, Inv, NoMoving, Transits, CellAt, TableId, TableName,
           TableRowSize, TableScale, TableFieldsNumber, TabOk, Least, RowSize, FreePagesFields, Contents, AllNamed, Declared,
           CatalogOk;
      FixedSizes(1);
      FixedNames(1);
      var small;
      small, k := PutRecord(FREE_PAGES_NAME, FREE_PAGES, FreePagesFields());
      FreeExtent(st.V(), small);
      ghost var v, homes := st.V(), st.homes;
      RecordPlace(v, k);
      st.MapRecord(FREE_PAGES, k);
      SameContents(st.V(), v);
      OneMoreListed(Db(), homes, FREE_PAGES, k);
    }

    /** `init_table`, and the row that `write_table` puts in the table of tables of a young file. */
    method PutRecord(name: seq<byte>, id: nat, fields: Fields) returns (scale: nat, k: Key)
      requires st.Good() && TABLES in st.tabs && st.tabs[TABLES].rowSize == TABLE_RECORD_SIZE && st.tabs[TABLES].scale == 1
      requires st.pagesNumber < 100 && NoNul(name) && |name| < TABLE_NAME_MAX_SZ && id < 0x1_0000 && |fields| < 0x1_0000
      requires RowSize(fields) <= MAX_ROW_SIZE && AllNamed(fields) && Declared(fields) && AllListed(Db(), st.homes)
      modifies st`pages, st`bytes, st`disk, st`tabs, st`pagesNumber, st`lists, st`owner
      ensures k in Db() && AllListed(Db(), st.homes) && k !in st.records && Headless(Db()[k].row)
      ensures st.Good() && st.pagesNumber <= old(st.pagesNumber) + 1 && st.tablesNumber == old(st.tablesNumber)
      ensures st.tabs.Keys == old(st.tabs).Keys && forall t :: t in st.tabs ==> st.tabs[t].rowSize == old(st.tabs)[t].rowSize
      ensures forall t :: t in st.tabs ==> st.tabs[t].scale == old(st.tabs)[t].scale
      ensures 1 <= scale < 0x1_0000 && Least(RowSize(fields), scale)
      ensures k !in old(Db()) && Db() == old(Db())[k := Cell(TABLES, Db()[k].row)]
      ensures RecordIs(Db()[k].row, name, id, |fields|, scale, RowSize(fields))
    {
      hide Storage.OnBytes, AllListed, AtHome, Headless, Inv, NoMoving, Transits, CellAt, EncodeTable, TableId,
           TableName, TableRowSize, TableScale, TableFieldsNumber, Least, Stops, RowSize, Contents, AllNamed, Declared;
      var ended, rowSize;
      ended, rowSize, scale := InitTable(fields);
      var pad := Leftover(TABLE_NAME_MAX_SZ - 1 - |name|);
      TableReads(name, pad, id, |fields|, scale, rowSize);
      CountsRead(name, pad, id, |fields|, scale, rowSize);
      NewRecord(name, pad, id, |fields|, scale, rowSize);
      var row := EncodeTable(name, pad, id, |fields|, scale, rowSize);
      var ok;
      ok, k := PutRow(TABLES, row, {});
    }

    ghost function Db(): Db
      reads st
    {
      Contents(st.V())
    }

    /** The client tables as clients see them, strings included. */
    ghost function Tuples(): map<Key, Tuple>
      reads this, st
    {
      Client(Db(), schemes)
    }

    /** In order, except for the first `done` string columns of row `x`. */
    ghost predicate Sound(x: Option<Key>, done: nat)
      reads this, st
    {
      && st.Good() && Consistent(Db(), st.tabs, st.tablesNumber, schemes, heaps, uses, x, done)
      && st.homes.Keys == st.tabs.Keys && AllListed(Db(), st.homes) && AtHome(st.homes)
    }

    ghost predicate Valid()
      reads this, st
    {
      Sound(None, 0) && NoLeaks(Db(), schemes, heaps, uses, None, 0)
    }

    /** The row sizes of the heap tables. */
    ghost function Sizes(): set<nat>
      reads this, st
    {
      HeapSizes(heaps, st.tabs)
    }

    /** The heap table for strings of this length. */
    ghost predicate HeapFor(t: nat, len: nat)
      reads this, st
    {
      t in heaps && t in st.tabs && st.tabs[t].rowSize == HeapRowSize(len)
    }

    /** The record of a heap table for strings of this length. */
    ghost predicate HeapRecord(t: nat, len: nat)
      reads st
    {
      t in st.tabs && RecordedAs(Db(), HEAP_TABLES_NAME, t, |HeapFields(len)|, st.tabs[t].scale, HeapRowSize(len))
    }

    /** The string is there, in a heap table. */
    ghost predicate HasText(loc: Key, text: seq<byte>)
      reads this, st
    {
      && loc in Db() && Db()[loc].table in heaps && HeapRowOk(Db()[loc].row, Db()[loc].table) && HeapText(Db()[loc].row) == text
      && loc.page < 0x1_0000_0000 && loc.row < 0x1_0000_0000
    }

    /** Since this state no row has gone, only these have come in the heap tables, and the client tables are laid out as then. */
    ghost predicate Grown(v: View, was: set<nat>, added: set<Key>)
      reads this, st
    {
      Growth(Contents(v), was, Db(), heaps, schemes, added) && AllKept(v, st.V(), schemes.Keys)
    }

    /** At `m` the client tables were laid out as before, and from there the row went to its place. */
    ghost predicate PlacedAfter(v: View, m: View, t: nat, k: Key)
      reads this, st
    {
      Inv(m, 0) && AllKept(v, m, schemes.Keys) && PlaceFor(m, t, k.page, k.row, st.pagesNumber)
    }

    /** The number of tables that are no heap tables. */
    ghost function Others(): int
      reads this, st
    {
      st.tablesNumber - |heaps|
    }

    /** There are heap tables for rows of exactly these sizes, and so many other tables. */
    ghost predicate HeapsAre(sizes: set<nat>, others: int)
      reads this, st
    {
      Sizes() == sizes && Others() == others
    }

    /** The file is too large for page 0 to pass for an empty page, or the table ids are used up. */
    ghost predicate AtLimit()
      reads st
    {
      st.pagesNumber >= 0x1_0000 || st.tablesNumber >= 0xFFFF
    }

    /** There is room for so many more pages and tables. */
    ghost predicate Room(pages: nat, tables: nat)
      reads st
    {
      st.pagesNumber + pages < 0x1_0000 && st.tablesNumber + tables < 0xFFFF
    }

    /** There is room for so many more pages. */
    ghost predicate PageRoom(pages: nat)
      reads st
    {
      st.pagesNumber + pages < 0x1_0000
    }

    /** The file has grown by at most so many pages and tables. */
    twostate predicate GrewBy(pages: nat, tables: nat)
      reads st
    {
      && old(st.pagesNumber) <= st.pagesNumber <= old(st.pagesNumber) + pages
      && old(st.tablesNumber) <= st.tablesNumber <= old(st.tablesNumber) + tables
    }

    /** Searches the table of tables, as `map_table` does: the first row met that passes. */
    method FindTable(f: Filter) returns (res: IterResult, t: nat, ghost k: Key)
      requires st.Good() && TABLES in st.tabs
      ensures res == Strayed <==> st.tabs[TABLES].firstFree == 0 && st.pagesNumber >= 0x1_0000
      ensures res == RowFound ==> MetFirst(st.V(), TABLES, f, k)
      ensures res == RowFound ==> ListedAt(Db(), k, t) && f(Db()[k].row)
      ensures res == SearchEnd ==> forall l :: l in Db() && Db()[l].table == TABLES ==> !f(Db()[l].row)
    {
      hide Storage.OnBytes, AllListed, AtHome, Headless, TableId, Inv, NoMoving, CursorOk, Pending, Behind, RowAt,
           TableHits, Transits, Lists, Geometry, Occupancy, Records, Tiling, AllSized;
      ghost var v := st.V();
      InvParts(v, 0);
      StartPending(v, TABLES, f);
      var first := st.tabs[TABLES].firstFree;
      ghost var i := if first == 0 then 0 else 1;
      AllAreSized(v);
      var found, d, j := st.NextRow(TABLES, Cursor(first, 0, false), f, i);
      res, t, k := found, 0, Key(0, 0);
      if res == RowFound {
        k := Key(d.page, d.row - 1);
        FoundRow(v, TABLES, Cursor(first, 0, false), i, d, j, f);
        RowIsCell(v, TABLES, k);
        t := TableId(st.pages[d.page].slots[d.row - 1].value);
      } else if res == SearchEnd {
        NoneListed(v, TABLES, f);
      }
    }

    // -------------------------------------------------------------- single rows

    /** Only rows of the table of tables are mapped as records. */
    lemma RecordsAreRows()
      requires st.OnBytes() && AllListed(Db(), st.homes)
      ensures forall k :: k in st.records ==> k in Db() && Db()[k].table == TABLES
    {
      hide Storage.OnBytes, Contents, TableId;
      forall k | k in st.records ensures k in Db() && Db()[k].table == TABLES {
        st.RecordHome(k);
        assert ListedAt(Db(), k, st.records[k]);
      }
    }

    /** `table_insert_row` for finished bytes, on the map. */
    method PutRow(t: nat, row: Row, ghost keep: set<nat>) returns (ok: bool, k: Key)
      requires st.Good() && t in st.tabs && t != FREE_PAGES && |row| == st.tabs[t].rowSize
      requires keep <= st.tabs.Keys && t !in keep && FREE_PAGES !in keep && AllListed(Db(), st.homes)
      modifies st`pages, st`bytes, st`disk, st`tabs, st`pagesNumber, st`lists, st`owner
      ensures ok <==> old(st.tabs[t].firstFree) != 0 || TakeOk(old(st.V()), old(st.tabs[t].scale))
      ensures old(st.pagesNumber) < 0x1_0000 ==> ok
      ensures GrewBy(ExtentPages(|row|), 0)
      ensures ok ==> AllKept(old(st.V()), st.V(), keep) && PlaceFor(old(st.V()), t, k.page, k.row, st.pagesNumber)
      ensures ok ==> st.Good() && SameTables(old(st.tabs), st.tabs) && st.tabs.Keys == old(st.tabs.Keys)
      ensures ok ==> k !in old(Db()) && Db() == old(Db())[k := Cell(t, row)]
      ensures ok ==> k.page < 0x1_0000_0000 && k.row < 0x1_0000_0000
      ensures ok ==> AllListed(Db(), st.homes) && k !in st.records
    {
      hide Storage.OnBytes, AllListed, AtHome, Headless, Inv, NoMoving, RowInserted, Transits, CellAt, AllKept, TakeOk, PlaceFor;
      ghost var v := st.V();
      RecordsAreRows();
      TableExtent(v, t);
      if st.pagesNumber < 0x1_0000 {
        SmallTakes(v, st.tabs[t].scale);
      }
      var p, r;
      ok, p, r := st.InsertRow(t, row);
      k := Key(p, r);
      if ok {
        InsertedGood(v, st.V(), t, p, r, row);
        InsertedContents(v, st.V(), t, p, r, row);
        OthersStay(v, st.V(), t, keep);
        CellFits(st.V(), k);
        ListedStill(Contents(v), Db(), st.homes);
      }
    }

    /** `table_remove_row` for a row whose strings are gone, on the map. */
    method DropRow(t: nat, k: Key, ghost keep: set<nat>) returns (ok: bool, ghost i: nat)
      requires st.Good() && t != FREE_PAGES && k in Db() && Db()[k].table == t
      requires keep <= st.tabs.Keys && t !in keep && FREE_PAGES !in keep && t != TABLES && AllListed(Db(), st.homes)
      modifies st`pages, st`bytes, st`disk, st`tabs, st`pagesNumber, st`lists, st`owner
      ensures ok ==> AllListed(Db(), st.homes)
      ensures ok ==> AllKept(old(st.V()), st.V(), keep) && RowRemoved(old(st.V()), st.V(), t, k.page, k.row, i)
      ensures ok <==> RemovalOk(old(st.V()), k.page, k.row)
      ensures !ok ==> st.pagesNumber >= 0x1_0000
      ensures GrewBy(1, 0) && (ok ==> st.pagesNumber == old(st.pagesNumber) + RemovalCost(old(st.V()), k.page, k.row))
      ensures ok ==> st.Good() && SameTables(old(st.tabs), st.tabs) && st.tabs.Keys == old(st.tabs.Keys)
      ensures ok ==> Db() == old(Db()) - {k}
    {
      hide Storage.OnBytes, AllListed, AtHome, Headless, Inv, NoMoving, RowRemoved, Transits, CellAt, RowAt, Untouched, AllKept, LastRow,
           RoomBeside, SpareBeside;
      ghost var v := st.V();
      RecordsAreRows();
      CellIsRow(v, t, k, Db()[k].row);
      ok, i := st.RemoveRow(t, k.page, k.row);
      if ok {
        RemovedGood(v, st.V(), t, k.page, k.row, i);
        RemovedContents(v, st.V(), t, k.page, k.row, i);
        UntouchedTables(v, st.V(), t);
        OthersStay(v, st.V(), t, keep);
        ListedStill(Contents(v), Db(), st.homes);
      }
    }

    /** `replace_row` for finished bytes, on the map. */
    method OverwriteRow(t: nat, k: Key, row: Row)
      requires st.Good() && t in st.tabs && t != FREE_PAGES && |row| == st.tabs[t].rowSize
      requires k in Db() && Db()[k].table == t && t != TABLES && AllListed(Db(), st.homes)
      modifies st`pages, st`bytes, st`disk, st`tabs, st`pagesNumber, st`lists, st`owner
      ensures GrewBy(0, 0) && AllListed(Db(), st.homes)
      ensures st.Good() && SameTables(old(st.tabs), st.tabs) && st.tabs.Keys == old(st.tabs.Keys)
      ensures Db() == old(Db())[k := Cell(t, row)] && RowReplaced(old(st.V()), st.V(), t, k.page, k.row, row)
    {
      hide Storage.OnBytes, AllListed, AtHome, Headless, Inv, NoMoving, RowReplaced, Transits, CellAt, RowAt, Untouched;
      ghost var v := st.V();
      RecordsAreRows();
      CellIsRow(v, t, k, Db()[k].row);
      st.ReplaceRow(t, k.page, k.row, row);
      ReplacedGood(v, st.V(), t, k.page, k.row, row);
      ReplacedContents(v, st.V(), t, k.page, k.row, row);
      UntouchedTables(v, st.V(), t);
      ListedStill(Contents(v), Db(), st.homes);
    }

    // -------------------------------------------------------------- tables

    /** The table whose row is at `k` takes the next id, and the row is mapped as its record. */
    method EnterTable(rowSize: nat, scale: nat, k: Key) returns (t: nat)
      requires st.Good() && st.tablesNumber !in st.tabs && TabOk(Tab(rowSize, scale, 0, 0))
      requires AllListed(Db(), st.homes) && AtHome(st.homes) && TABLES in st.tabs
      requires ListedAt(Db(), k, st.tablesNumber) && Headless(Db()[k].row) && k !in st.records
      modifies st`bytes, st`disk, st`tabs, st`homes, st`records, st`lists, st`tablesNumber
      ensures st.Good() && st.V() == AddTable(old(st.V()), t, rowSize, scale) && Db() == old(Db())
      ensures t == old(st.tablesNumber) && st.tablesNumber == t + 1
      ensures AllListed(Db(), st.homes) && AtHome(st.homes) && st.homes.Keys == old(st.homes.Keys) + {t}
    {
      hide Storage.OnBytes, AllListed, Headless, Inv, NoMoving, Transits, CellAt, TableId, TabOk, Contents;
      ghost var v, homes := st.V(), st.homes;
      RecordPlace(v, k);
      t := st.RegisterTable(rowSize, scale, k);
      SameContents(st.V(), v);
      OneMoreListed(Db(), homes, t, k);
    }

    /** `write_table`: the row in the table of tables, and the table record that it stands for. */
    method WriteTable(name: seq<byte>, fieldsN: nat, rowSize: nat, scale: nat, ghost x: Option<Key>, ghost done: nat)
      returns (ok: bool, t: nat)
      requires Sound(x, done) && NoNul(name) && |name| < TABLE_NAME_MAX_SZ && fieldsN < 0x1_0000
      requires 1 <= rowSize <= MAX_ROW_SIZE && 1 <= scale < 0x1_0000 && Least(rowSize, scale)
      requires name == HEAP_TABLES_NAME ==> rowSize % HEAP_ROW_SIZE_STEP == 4 && rowSize !in Sizes()
      modifies this`heaps, st
      ensures !ok ==> AtLimit()
      ensures GrewBy(1, 1)
      ensures ok ==> Sound(x, done) && t == old(st.tablesNumber) && st.tablesNumber == t + 1
      ensures ok ==> t in st.tabs && st.tabs[t].rowSize == rowSize && t !in old(st.tabs)
      ensures ok ==> RecordedAs(Db(), name, t, fieldsN, scale, rowSize) && st.tabs[t].scale == scale
      ensures ok ==> heaps == old(heaps) + if name == HEAP_TABLES_NAME then {t} else {}
      ensures ok ==> t !in old(heaps) && Sizes() == old(Sizes()) + if name == HEAP_TABLES_NAME then {rowSize} else {}
      ensures ok ==> forall l :: l in Db() ==> Db()[l].table != t
      ensures ok ==> Growth(old(Db()), old(heaps), Db(), heaps, schemes, {}) && AllKept(old(st.V()), st.V(), schemes.Keys)
    {
      hide Storage.OnBytes, AllListed, AtHome, Headless, Contents, Inv, NoMoving, Transits, CellAt, Consistent, TabOk,
           Least, EncodeTable, TableId, TableName, TableRowSize, TableScale, TableFieldsNumber, SameTables, HeapSizes,
           Growth, AllKept, NoLeaks, NewSize, PlaceFor;
      t := 0;
      ghost var a, tabs := Db(), st.tabs;
      ConsistentNames(a, tabs, st.tablesNumber, schemes, heaps, uses, x, done);
      if st.tablesNumber + 1 >= 0x1_0000 {
        return false, 0;
      }
      var pad := Leftover(TABLE_NAME_MAX_SZ - 1 - |name|);
      TableReads(name, pad, st.tablesNumber, fieldsN, scale, rowSize);
      CountsRead(name, pad, st.tablesNumber, fieldsN, scale, rowSize);
      NewRecord(name, pad, st.tablesNumber, fieldsN, scale, rowSize);
      var row := EncodeTable(name, pad, st.tablesNumber, fieldsN, scale, rowSize);
      var k;
      if name == HEAP_TABLES_NAME {
        NoHeap(heaps, tabs, rowSize);
      }
      ok, k := PutRow(TABLES, row, schemes.Keys);
      if ok {
        SizedTable(rowSize, scale);
        SameIds(tabs, st.tabs);
        SizesAdded(heaps, tabs, st.tabs, st.tablesNumber, Tab(rowSize, scale, 0, 0), name == HEAP_TABLES_NAME);
        ghost var more := heaps + if name == HEAP_TABLES_NAME then {st.tablesNumber} else {};
        TableAdded(a, tabs, st.tabs, schemes, heaps, st.tablesNumber, k, row, Tab(rowSize, scale, 0, 0), more, uses, x, done);
        ghost var v := st.V();
        NoRowsOf(a, tabs, st.tablesNumber, schemes, heaps, uses, x, done);
        t := EnterTable(rowSize, scale, k);
        NewTableStays(v, t, rowSize, scale, schemes.Keys);
        AllKeptThen(old(st.V()), v, st.V(), schemes.Keys);
        heaps := more;
        assert RecordIs(Db()[k].row, name, t, fieldsN, scale, rowSize);
        assert Consistent(Db(), st.tabs, st.tablesNumber, schemes, heaps, uses, x, done);
      }
    }

    /** A new heap table for strings of this length. */
    method MakeHeapTable(len: nat, ghost x: Option<Key>, ghost done: nat) returns (ok: bool, t: nat)
      requires Sound(x, done) && 1 <= len <= MAX_HEAP_STRING && HeapRowSize(len) !in Sizes()
      modifies this`heaps, st
      ensures !ok ==> AtLimit()
      ensures GrewBy(1, 1)
      ensures ok ==> t == old(st.tablesNumber) && heaps == old(heaps) + {t} && HeapsAre(old(Sizes()) + {HeapRowSize(len)}, old(Others()))
      ensures ok ==> Sound(x, done) && HeapFor(t, len) && HeapRecord(t, len)
      ensures ok ==> Grown(old(st.V()), old(heaps), {})
    {
      hide Storage.OnBytes, AllListed, AtHome, Headless, Contents, Inv, NoMoving, Transits, CellAt, Consistent,
           HeapRowSize, HeapSizes, Growth, AllKept, RowSize, Least, Stops, AllNamed, Declared, HeapFields, TabOk, Capacity,
           RecordedAs;
      HeapSize(len);
      FixedSizes(len);
      FixedNames(len);
      var ended, rowSize, scale := InitTable(HeapFields(len));
      ok, t := WriteTable(HEAP_TABLES_NAME, 3, rowSize, scale, x, done);
    }

    /** The rows that the search for a heap table lets pass. */
    static function HeapRows(len: nat): Filter {
      (row: Row) => TableName(row) == HEAP_TABLES_NAME && InWindow(len, TableRowSize(row))
    }

    /** `get_heap_table`: the heap table for strings of this length, created exactly when there is none. */
    method GetHeapTable(len: nat, ghost x: Option<Key>, ghost done: nat) returns (ok: bool, t: nat)
      requires Sound(x, done) && 1 <= len <= MAX_HEAP_STRING
      modifies this`heaps, st
      ensures !ok ==> AtLimit()
      ensures GrewBy(1, 1)
      ensures old(HeapRowSize(len) in Sizes()) ==> unchanged(st) && heaps == old(heaps)
      ensures ok && old(HeapRowSize(len) in Sizes()) ==> exists k :: MetFirst(st.V(), TABLES, HeapRows(len), k) && ListedAt(Db(), k, t)
      ensures ok && old(HeapRowSize(len) !in Sizes()) ==> t == old(st.tablesNumber) && heaps == old(heaps) + {t} && HeapRecord(t, len)
      ensures ok ==> HeapsAre(old(Sizes()) + {HeapRowSize(len)}, old(Others()))
      ensures ok ==> Sound(x, done) && HeapFor(t, len)
      ensures ok ==> Grown(old(st.V()), old(heaps), {})
    {
      hide Storage.OnBytes, AllListed, AtHome, Headless, Contents, Inv, NoMoving, Transits, CellAt, Consistent, TableId,
           TableName, TableRowSize, HeapRowSize, HeapSizes, InWindow, ListedAt, AllKept;
      SameStays(st.V(), schemes.Keys) by { ConsistentNames(Db(), st.tabs, st.tablesNumber, schemes, heaps, uses, x, done); }
      ConsistentNames(Db(), st.tabs, st.tablesNumber, schemes, heaps, uses, x, done);
      var res;
      ghost var k;
      res, t, k := FindTable(HeapRows(len));
      ok := true;
      match res {
        case Strayed =>
          ok := false;
        case RowFound =>
          FoundHeap(Db(), st.tabs, st.tablesNumber, schemes, heaps, uses, x, done, k, t, len);
          SizeThere(heaps, st.tabs, t);
        case SearchEnd =>
          if HeapRowSize(len) in Sizes() {
            ghost var l := HeapListed(Db(), st.tabs, st.tablesNumber, schemes, heaps, uses, x, done, len);
            assert false;
          }
          ok, t := MakeHeapTable(len, x, done);
      }
    }

    /** The number of columns, from the record of the table. */
    method FieldsNumber(t: nat) returns (n: nat)
      requires Valid() && t in schemes
      ensures n == |schemes[t]|
    {
      hide Storage.OnBytes, AtHome, Headless, Contents, Inv, NoMoving, Transits, CellAt, TableId, TableFieldsNumber,
           CatalogOk, StringsOk, NoLeaks;
      assert ListedAt(Db(), st.homes[t], t);
      var row := RowBytes(st.homes[t]);
      n := TableFieldsNumber(row);
    }

    // -------------------------------------------------------------- rows with strings

    /** A row with the string in a heap table for its length. */
    method PutText(t: nat, text: seq<byte>, ghost x: Option<Key>, ghost done: nat) returns (ok: bool, loc: Key)
      requires Sound(x, done) && NoNul(text) && |text| + 1 <= MAX_HEAP_STRING && HeapFor(t, |text| + 1)
      modifies st
      ensures old(st.pagesNumber) < 0x1_0000 ==> ok
      ensures GrewBy(ExtentPages(HeapRowSize(|text| + 1)), 0)
      ensures ok ==> Sound(x, done) && Grown(old(st.V()), heaps, {loc}) && HasText(loc, text) && Sizes() == old(Sizes())
    {
      hide Storage.OnBytes, AllListed, AtHome, Headless, Contents, Inv, NoMoving, Transits, CellAt, Consistent,
           HeapRowSize, HeapSizes, EncodeHeapRow, HeapRowOk, HeapText, SameTables, Growth, AllKept, ExtentPages, NoNul;
      ghost var m, tabs := Db(), st.tabs;
      ConsistentNames(m, tabs, st.tablesNumber, schemes, heaps, uses, x, done);
      HeapSize(|text| + 1);
      var pad := Leftover(NearestHeapSize(|text| + 1) - |text| - 1);
      TablesBelow(m, tabs, st.tablesNumber, schemes, heaps, uses, x, done, t);
      HeapRowReads(text, pad, t);
      var row := EncodeHeapRow(text, pad, t);
      ok, loc := PutRow(t, row, schemes.Keys);
      if ok {
        SizesKept(heaps, tabs, st.tabs);
        HeapRowAdded(m, tabs, st.tabs, schemes, heaps, st.tablesNumber, loc, row, t, uses, x, done);
      }
    }

    /** A string goes into a row of its heap table. */
    method InsertString(text: seq<byte>, ghost x: Option<Key>, ghost done: nat) returns (ok: bool, loc: Key)
      requires Sound(x, done) && NoNul(text) && |text| + 1 <= MAX_HEAP_STRING
      modifies this`heaps, st
      ensures !ok ==> AtLimit()
      ensures GrewBy(StringPages(|text|), 1)
      ensures ok ==> HeapsAre(old(Sizes()) + {HeapRowSize(|text| + 1)}, old(Others()))
      ensures ok ==> Sound(x, done) && Grown(old(st.V()), old(heaps), {loc}) && HasText(loc, text)
    {
      hide Storage.OnBytes, AllListed, AtHome, Headless, Contents, Inv, NoMoving, Transits, CellAt, Consistent,
           HeapRowSize, HeapSizes, HeapRowOk, HeapText, Growth, AllKept, ExtentPages, NoNul, Database.HeapRecord;
      loc := Key(0, 0);
      var t;
      ok, t := GetHeapTable(|text| + 1, x, done);
      if ok {
        ghost var v, m, hm := st.V(), Db(), heaps;
        ok, loc := PutText(t, text, x, done);
        if ok {
          AllKeptThen(old(st.V()), v, st.V(), schemes.Keys);
          GrowthThen(old(Db()), old(heaps), m, hm, Db(), heaps, schemes, {}, {loc});
          assert {} + {loc} == {loc};
        }
      }
    }

    /** The bytes of one column, once its string, if it has one, is in the heap. */
    method PrepareColumn(f: SchemeItem, value: Value, ghost i: nat, ghost added: map<Key, nat>, ghost x: Option<Key>, ghost done: nat)
      returns (ok: bool, piece: seq<byte>, ghost more: map<Key, nat>)
      requires Sound(x, done) && Holds(f, value)
      modifies this`heaps, st
      ensures !ok ==> AtLimit()
      ensures GrewBy(ValuePages(f, value), if f.ftype == Str then 1 else 0)
      ensures f.ftype != Str ==> ok && unchanged(st)
      ensures ok ==> HeapsAre(old(Sizes()) + TextSize(f, value), old(Others()))
      ensures ok ==> Sound(x, done) && |piece| == f.maxSz
      ensures ok ==> ColumnReady(Db(), heaps, f, value, piece, i, more)
      ensures ok ==> if f.ftype == Str then |piece| == 8 && RefOf(piece) !in old(Db()) && more == added[RefOf(piece) := i] else more == added
      ensures ok ==> Grown(old(st.V()), old(heaps), if f.ftype == Str then {RefOf(piece)} else {})
    {
      hide Storage.OnBytes, AllListed, AtHome, Headless, Contents, Inv, NoMoving, Transits, CellAt, Consistent, HeapRowOk,
           HeapText, HeapSizes, HeapRowSize, EncodeRef, AllKept, CString, NoNul;
      SameStays(st.V(), schemes.Keys) by { ConsistentNames(Db(), st.tabs, st.tablesNumber, schemes, heaps, uses, x, done); }
      ok, more := true, added;
      if f.ftype == Str {
        var loc;
        ok, loc := InsertString(value.chars, x, done);
        if !ok {
          piece := [];
          return;
        }
        piece := EncodeRef(loc);
        more := added[loc := i];
      } else if f.ftype == Chars {
        var pad := Leftover(f.maxSz - |value.chars| - 1);
        CStringReads(value.chars, pad);
        piece := value.chars + [0] + pad;
      } else {
        piece := value.bytes;
      }
    }

    /** Nothing has been prepared yet. */
    lemma NothingPrepared(fields: Fields, values: seq<Value>, x: Option<Key>, done: nat)
      requires Sound(x, done) && |values| == |fields|
      ensures Grown(st.V(), heaps, {}) && Prepared(Db(), Db(), heaps, fields, values, [], 0, map[])
    {
      hide Storage.OnBytes, AllListed, AtHome, Headless, Contents, Inv, NoMoving, Transits, CellAt, Consistent, Prepared, Growth;
      ConsistentNames(Db(), st.tabs, st.tablesNumber, schemes, heaps, uses, x, done);
      SameStays(st.V(), schemes.Keys);
      NothingYet(Db(), heaps, fields, values, schemes, st.tabs, st.tablesNumber, uses, x, done);
    }

    /** The next column of a row in preparation; the preparation began at `v`, with the heap tables `was`. */
    method PrepareNext(fields: Fields, values: seq<Value>, row: Row, i: nat, ghost added: map<Key, nat>, ghost v: View, ghost was: set<nat>,
                       ghost x: Option<Key>)
      returns (ok: bool, next: Row, ghost more: map<Key, nat>)
      requires Sound(x, |fields|) && SchemeOk(fields) && AllHold(fields, values) && i < |fields| && |row| == Offset(fields, i)
      requires Grown(v, was, added.Keys) && Prepared(Contents(v), Db(), heaps, fields, values, row, i, added)
      modifies this`heaps, st
      ensures !ok ==> AtLimit()
      ensures GrewBy(ValuePages(fields[i], values[i]), if fields[i].ftype == Str then 1 else 0)
      ensures fields[i].ftype != Str ==> ok && unchanged(st)
      ensures ok ==> HeapsAre(old(Sizes()) + TextSize(fields[i], values[i]), old(Others()))
      ensures ok ==> Sound(x, |fields|) && |next| == Offset(fields, i + 1)
      ensures ok ==> Grown(v, was, more.Keys) && Prepared(Contents(v), Db(), heaps, fields, values, next, i + 1, more)
    {
      hide Storage.OnBytes, AllListed, AtHome, Headless, Contents, Inv, NoMoving, Transits, CellAt, Consistent,
           Prepared, Growth, ColumnReady, AllKept, HeapSizes, TextSize, Holds, ValuePages;
      if fields[i].order != i {
        assert false;
      }
      ghost var m, hm, mid := Db(), heaps, st.V();
      var piece;
      ok, piece, more := PrepareColumn(fields[i], values[i], i, added, x, |fields|);
      next := row + piece;
      if ok {
        ghost var fresh' := if fields[i].ftype == Str then {RefOf(piece)} else {};
        AllKeptThen(v, mid, st.V(), schemes.Keys);
        GrowthThen(Contents(v), was, m, hm, Db(), heaps, schemes, added.Keys, fresh');
        GrowthKeeps(Contents(v), was, m, hm, schemes, added.Keys);
        GrowthKeeps(m, hm, Db(), heaps, schemes, fresh');
        PreparedStep(Contents(v), m, hm, Db(), heaps, fields, values, row, i, added, piece, more);
        assert more.Keys == added.Keys + fresh';
      }
    }

    /** `prepare_row_for_insertion`: the bytes of a row, its strings put in the heaps on the way. */
    method PrepareRow(fields: Fields, values: seq<Value>, ghost x: Option<Key>)
      returns (ok: bool, row: Row, ghost added: map<Key, nat>)
      requires Sound(x, |fields|) && SchemeOk(fields) && AllHold(fields, values)
      modifies this`heaps, st
      ensures !ok ==> AtLimit()
      ensures GrewBy(TextPages(fields, values), StringCount(fields))
      ensures StringCount(fields) == 0 ==> ok && st.V() == old(st.V())
      ensures ok ==> HeapsAre(old(Sizes()) + TextSizes(fields, values, |fields|), old(Others()))
      ensures ok ==> Sound(x, |fields|) && Grown(old(st.V()), old(heaps), added.Keys) && |row| == RowSize(fields)
      ensures ok ==> Prepared(old(Db()), Db(), heaps, fields, values, row, |fields|, added)
    {
      hide Storage.OnBytes, AllListed, AtHome, Headless, Contents, Inv, NoMoving, Transits, CellAt, Consistent,
           Prepared, Growth, AllKept, HeapSizes, TextSizes, TextSize, Holds, ValuePages, Database.Sound, Database.Grown;
      ghost var v, was := st.V(), heaps;
      ok, row, added := true, [], map[];
      assert added.Keys == {};
      HoldSize(fields, values);
      NothingPrepared(fields, values, x, |fields|);
      NoSizesYet(Sizes(), fields, values);
      var i := 0;
      while i < |fields|
        invariant i <= |fields| && GrewBy(ValuesPages(fields, values, i), StringColumns(fields, i))
        invariant HeapsAre(old(Sizes()) + TextSizes(fields, values, i), old(Others()))
        invariant StringColumns(fields, i) == 0 ==> st.V() == v
        invariant |row| == Offset(fields, i) && Sound(x, |fields|)
        invariant Grown(v, was, added.Keys) && Prepared(Contents(v), Db(), heaps, fields, values, row, i, added)
      {
        PagesGrow(fields, values, i + 1, |fields|);
        CountsGrow(fields, i + 1, |fields|);
        NextSizes(old(Sizes()), fields, values, i);
        ok, row, added := PrepareNext(fields, values, row, i, added, v, was, x);
        if !ok {
          return;
        }
        i := i + 1;
      }
    }

    /** `table_insert_row`. At `m` the strings are stored. */
    method Insert(t: nat, fields: Fields, values: seq<Value>) returns (ok: bool, k: Key, ghost m: View)
      requires Valid() && t in schemes && schemes[t] == fields && AllHold(fields, values)
      modifies this`heaps, this`uses, st
      ensures !ok ==> AtLimit()
      ensures GrewBy(InsertPages(fields, values), StringCount(fields))
      ensures old(Room(TextPages(fields, values), StringCount(fields))) ==> ok
      ensures ok ==> HeapsAre(old(Sizes()) + TextSizes(fields, values, |fields|), old(Others())) && AllStay(old(Db()), Db())
      ensures ok ==> Valid() && st.tablesNumber >= old(st.tablesNumber)
      ensures ok ==> k !in old(Db()) && Tuples() == old(Tuples())[k := Tuple(t, Stored(values))]
      ensures ok ==> PlacedAfter(old(st.V()), m, t, k)
      ensures StringCount(fields) == 0 ==> m == old(st.V())
    {
      hide Storage.OnBytes, AllListed, AtHome, Headless, Contents, Inv, NoMoving, Transits, CellAt, Consistent,
           Prepared, Growth, SameTables, NoLeaks, Client, Stored, StringsOk, Uses, AllKept, HeapSizes, TextSizes, TakeOk,
           PlaceFor, StringCount, SchemeOk, RowSize, ExtentPages;
      ghost var a, ha := Db(), heaps;
      k := Key(0, 0);
      NoneDropped(a, st.tabs, st.tablesNumber, schemes, heaps, uses, |fields|);
      ConsistentNames(a, st.tabs, st.tablesNumber, schemes, heaps, uses, None, |fields|);
      var row;
      ghost var added;
      ok, row, added := PrepareRow(fields, values, None);
      m := st.V();
      if ok {
        ghost var b, tabs := Db(), st.tabs;
        ConsistentNames(b, tabs, st.tablesNumber, schemes, heaps, uses, None, |fields|);
        ok, k := PutRow(t, row, {});
        if ok {
          RowPut(a, b, tabs, st.tabs, schemes, ha, heaps, st.tablesNumber, uses, None, t, values, row, added, k);
          GrowthKeeps(a, ha, b, heaps, schemes, added.Keys);
          SizesKept(heaps, tabs, st.tabs);
          uses := Uses(uses, added, k);
        }
      }
    }

    /** The row bytes at a place. */
    method RowBytes(k: Key) returns (row: Row)
      requires st.Good() && k in Db()
      ensures row == Db()[k].row
    {
      hide Storage.OnBytes, AllListed, AtHome, Headless, Inv, NoMoving, Transits;
      CellBytes(st.V(), k);
      row := st.pages[k.page].slots[k.row].value;
    }

    /** `remove_str_from_heap`: the string of the column at `offset` of row `k` goes from its heap table. */
    method RemoveString(fields: Fields, k: Key, offset: nat, ghost i: nat) returns (ok: bool, ghost loc: Key)
      requires k in Db() && Db()[k].table in schemes && schemes[Db()[k].table] == fields
      requires Sound(Some(k), i) && NoLeaks(Db(), schemes, heaps, uses, Some(k), i)
      requires i < |fields| && fields[i].ftype == Str && offset == Offset(fields, i)
      modifies st
      ensures !ok ==> st.pagesNumber >= 0x1_0000
      ensures GrewBy(1, 0)
      ensures ok ==> Sound(Some(k), i + 1) && NoLeaks(Db(), schemes, heaps, uses, Some(k), i + 1)
      ensures ok ==> Db() == old(Db()) - {loc} && loc != k && st.tablesNumber == old(st.tablesNumber) && Sizes() == old(Sizes())
      ensures ok ==> End(fields, i) <= |old(Db())[k].row| && |Piece(fields, old(Db())[k].row, i)| == 8
      ensures ok ==> loc == RefOf(Piece(fields, old(Db())[k].row, i))
      ensures ok ==> Client(Db(), schemes) - {k} == Client(old(Db()), schemes) - {k} && AllKept(old(st.V()), st.V(), schemes.Keys)
    {
      hide Storage.OnBytes, AllListed, AtHome, Headless, Contents, Inv, NoMoving, Transits, CellAt, Consistent,
           HeapRowOk, NoLeaks, Client, SameTables, RefOf, HeapTableId, ColumnOk, ListedAt, AllKept, RowRemoved, HeapSizes;
      ghost var a, tabs := Db(), st.tabs;
      ConsistentNames(a, tabs, st.tablesNumber, schemes, heaps, uses, Some(k), i);
      NextColumn(a, tabs, st.tablesNumber, schemes, heaps, uses, k, i);
      Reference(a, schemes, heaps, uses, k, i);
      var row := RowBytes(k);
      var at := RefOf(row[offset..offset + 8]);
      loc := at;
      var text := RowBytes(at);
      var id := HeapTableId(text);
      IdOfHeap(text, a[at].table);
      var res, t;
      ghost var l;
      var f := (r: Row) => TableId(r) == id;
      res, t, l := FindTable(f);
      assert Db() == a;
      ListedOnce(a, tabs, st.tablesNumber, schemes, heaps, uses, Some(k), i, id);
      match res {
        case Strayed =>
          ok := false;
        case SearchEnd =>
          ListedFound(a, id, f);
          assert false;
        case RowFound =>
          FoundId(a, l, t, id);
          ghost var i';
          ok, i' := DropRow(t, at, schemes.Keys);
          if ok {
            StringRemoved(a, tabs, st.tabs, schemes, heaps, st.tablesNumber, uses, k, i, loc);
            SizesKept(heaps, tabs, st.tabs);
          }
      }
    }

    /** The strings of row `k` go, one column after the other. */
    method RemoveStrings(t: nat, fields: Fields, k: Key) returns (ok: bool)
      requires Valid() && t in schemes && schemes[t] == fields && k in Db() && Db()[k].table == t
      modifies st
      ensures !ok ==> st.pagesNumber >= 0x1_0000
      ensures GrewBy(StringCount(fields), 0)
      ensures ok ==> Sound(Some(k), |fields|) && NoLeaks(Db(), schemes, heaps, uses, Some(k), |fields|)
      ensures ok ==> Db() == old(Db()) - Strings(fields, old(Db())[k].row, 0, |fields|) && k in Db()
      ensures ok ==> Client(Db(), schemes) - {k} == old(Tuples()) - {k} && st.tablesNumber == old(st.tablesNumber)
      ensures ok ==> AllKept(old(st.V()), st.V(), schemes.Keys) && Sizes() == old(Sizes())
    {
      hide Storage.OnBytes, AllListed, AtHome, Headless, Contents, Inv, NoMoving, Transits, CellAt, Consistent, NoLeaks,
           Client, RefOf, AllKept, HeapSizes;
      SameStays(st.V(), schemes.Keys) by { ConsistentNames(Db(), st.tabs, st.tablesNumber, schemes, heaps, uses, None, 0); }
      ghost var a := Db();
      NoneExempt(a, st.tabs, st.tablesNumber, schemes, heaps, uses, k);
      ok := true;
      var offset := 0;
      var i := 0;
      while i < |fields|
        invariant i <= |fields| && GrewBy(StringColumns(fields, i), 0)
        invariant offset == Offset(fields, i) && ok
        invariant Sound(Some(k), i) && NoLeaks(Db(), schemes, heaps, uses, Some(k), i)
        invariant Db() == a - Strings(fields, a[k].row, 0, i) && k in Db()
        invariant Client(Db(), schemes) - {k} == Client(a, schemes) - {k} && st.tablesNumber == old(st.tablesNumber)
        invariant AllKept(old(st.V()), st.V(), schemes.Keys) && Sizes() == old(Sizes())
      {
        NextStrings(fields, a[k].row, i);
        CountsGrow(fields, i + 1, |fields|);
        if fields[i].ftype == Str {
          ghost var v := st.V();
          ghost var loc;
          ok, loc := RemoveString(fields, k, offset, i);
          if !ok {
            return;
          }
          AllKeptThen(old(st.V()), v, st.V(), schemes.Keys);
        } else {
          PlainConsistent(Db(), st.tabs, st.tablesNumber, schemes, heaps, uses, k, i);
        }
        offset := offset + fields[i].maxSz;
        i := i + 1;
      }
    }

    /** `table_remove_row`. At `m` the strings are gone, and the row still stands where it stood. */
    method Remove(t: nat, fields: Fields, k: Key) returns (ok: bool, ghost m: View, ghost i: nat)
      requires Valid() && t in schemes && schemes[t] == fields && k in Db() && Db()[k].table == t
      modifies st
      ensures ok ==> Inv(m, 0) && AllKept(old(st.V()), m, schemes.Keys) && RowRemoved(m, st.V(), t, k.page, k.row, i)
      ensures !ok ==> st.pagesNumber >= 0x1_0000
      ensures GrewBy(RemovePages(fields), 0)
      ensures old(PageRoom(RemovePages(fields))) ==> ok
      ensures ok ==> Valid() && Tuples() == old(Tuples()) - {k} && st.tablesNumber == old(st.tablesNumber) && Sizes() == old(Sizes())
      ensures ok ==> Db() == old(Db()) - Strings(fields, old(Db())[k].row, 0, |fields|) - {k}
    {
      hide Storage.OnBytes, AllListed, AtHome, Headless, Contents, Inv, NoMoving, Transits, CellAt, Consistent, NoLeaks,
           Client, SameTables, Strings, AllKept, RowRemoved, HeapSizes;
      i := 0;
      ok := RemoveStrings(t, fields, k);
      m := st.V();
      if ok {
        ghost var b, tabs := Db(), st.tabs;
        StringsElsewhere(b, tabs, st.tablesNumber, schemes, heaps, uses, k, old(Db()));
        ConsistentNames(b, tabs, st.tablesNumber, schemes, heaps, uses, Some(k), |fields|);
        ok, i := DropRow(t, k, {});
        if ok {
          RowGone(b, tabs, st.tabs, schemes, heaps, st.tablesNumber, uses, k);
          SizesKept(heaps, tabs, st.tabs);
        }
      }
    }

    /** New contents for a row whose strings are gone. */
    method Refill(t: nat, fields: Fields, k: Key, values: seq<Value>) returns (ok: bool, ghost m: View, ghost row: Row)
      requires t in schemes && schemes[t] == fields && AllHold(fields, values) && k in Db() && Db()[k].table == t
      requires Sound(Some(k), |fields|) && NoLeaks(Db(), schemes, heaps, uses, Some(k), |fields|)
      modifies this`heaps, this`uses, st
      ensures !ok ==> AtLimit()
      ensures GrewBy(TextPages(fields, values), StringCount(fields))
      ensures ok ==> Valid() && st.tablesNumber >= old(st.tablesNumber)
      ensures ok ==> Tuples() == Client(old(Db()), schemes)[k := Tuple(t, Stored(values))]
      ensures ok ==> HeapsAre(old(Sizes()) + TextSizes(fields, values, |fields|), old(Others()))
      ensures ok ==> Inv(m, 0) && AllKept(old(st.V()), m, schemes.Keys) && RowReplaced(m, st.V(), t, k.page, k.row, row)
    {
      hide Storage.OnBytes, AllListed, AtHome, Headless, Contents, Inv, NoMoving, Transits, CellAt, Consistent,
           Prepared, Growth, SameTables, NoLeaks, Client, Stored, StringsOk, Uses, AllHold, AllKept, RowReplaced, HeapSizes, TextSizes;
      ghost var a, ha := Db(), heaps;
      StringsElsewhere(a, st.tabs, st.tablesNumber, schemes, heaps, uses, k, a);
      ConsistentNames(a, st.tabs, st.tablesNumber, schemes, heaps, uses, Some(k), |fields|);
      HoldSize(fields, values);
      var bytes;
      ghost var added;
      ok, bytes, added := PrepareRow(fields, values, Some(k));
      row, m := bytes, st.V();
      if ok {
        ghost var b, tabs := Db(), st.tabs;
        ConsistentNames(b, tabs, st.tablesNumber, schemes, heaps, uses, Some(k), |fields|);
        GrowthKeeps(a, ha, b, heaps, schemes, added.Keys);
        OverwriteRow(t, k, bytes);
        RowPut(a, b, tabs, st.tabs, schemes, ha, heaps, st.tablesNumber, uses, Some(k), t, values, row, added, k);
        SizesKept(heaps, tabs, st.tabs);
        uses := Uses(uses, added, k);
      }
    }

    /** `table_replace_row`. At `m` the new strings are stored, and the row still stands where it stood. */
    method Replace(t: nat, fields: Fields, k: Key, values: seq<Value>) returns (ok: bool, ghost m: View, ghost row: Row)
      requires Valid() && t in schemes && schemes[t] == fields && AllHold(fields, values)
      requires k in Db() && Db()[k].table == t
      modifies this`heaps, this`uses, st
      ensures !ok ==> AtLimit()
      ensures GrewBy(ReplacePages(fields, values), StringCount(fields))
      ensures old(Room(ReplacePages(fields, values), StringCount(fields))) ==> ok
      ensures ok ==> Valid() && st.tablesNumber >= old(st.tablesNumber)
      ensures ok ==> Tuples() == old(Tuples())[k := Tuple(t, Stored(values))]
      ensures ok ==> HeapsAre(old(Sizes()) + TextSizes(fields, values, |fields|), old(Others()))
      ensures ok ==> Inv(m, 0) && AllKept(old(st.V()), m, schemes.Keys) && RowReplaced(m, st.V(), t, k.page, k.row, row)
    {
      hide Storage.OnBytes, AllListed, AtHome, Headless, Contents, Inv, NoMoving, Transits, CellAt, Consistent, NoLeaks,
           Client, Stored, StringsOk, Strings, AllHold, AllKept, RowReplaced, HeapSizes, TextSizes;
      ghost var was := Tuples();
      ok := RemoveStrings(t, fields, k);
      m, row := st.V(), [];
      if ok {
        ghost var v := st.V();
        SameElsewhere(Client(Db(), schemes), was, k, Tuple(t, Stored(values)));
        ok, m, row := Refill(t, fields, k, values);
        if ok {
          AllKeptThen(old(st.V()), v, m, schemes.Keys);
        }
      }
    }

    /** One column of a row. */
    method GetColumn(fields: Fields, k: Key, row: Row, pointer: nat, i: nat) returns (value: Value)
      requires Valid() && k in Db() && Db()[k].table in schemes && schemes[Db()[k].table] == fields && row == Db()[k].row
      requires i < |fields| && pointer == Offset(fields, i)
      ensures End(fields, i) <= |row| && ReadColumn(Db(), fields[i], Piece(fields, row, i)) == Some(value)
    {
      hide Storage.OnBytes, AllListed, AtHome, Headless, Inv, NoMoving, Transits, CellAt, Consistent, NoLeaks, RefOf,
           HeapText, CString, ColumnOk, HeapRowOk;
      AnyColumn(Db(), st.tabs, st.tablesNumber, schemes, heaps, uses, k, i);
      var piece := row[pointer..pointer + fields[i].maxSz];
      if fields[i].ftype == Str {
        Reference(Db(), schemes, heaps, uses, k, i);
        var text := RowBytes(RefOf(piece));
        value := Text(HeapText(text));
      } else if fields[i].ftype == Chars {
        value := Text(CString(piece));
      } else {
        value := Raw(piece);
      }
    }

    /** `table_get_row_in_buff`: the columns of a row, strings fetched from the heaps. */
    method Get(t: nat, fields: Fields, k: Key) returns (values: seq<Value>)
      requires Valid() && t in schemes && schemes[t] == fields && k in Db() && Db()[k].table == t
      ensures k in Tuples() && Tuples()[k] == Tuple(t, Stored(values))
    {
      hide Storage.OnBytes, AllListed, AtHome, Headless, Inv, NoMoving, Transits, CellAt, Consistent, NoLeaks,
           ReadColumn, ReadsAs, ReadRow, Stored;
      ghost var db := Db();
      ConsistentNames(Db(), st.tabs, st.tablesNumber, schemes, heaps, uses, None, 0);
      var row := RowBytes(k);
      values := [];
      ReadsNone(db, fields, row);
      var pointer := 0;
      var i := 0;
      while i < |fields|
        invariant i <= |fields| && pointer == Offset(fields, i) && |values| == i
        invariant ReadsAs(db, fields, row, values)
      {
        if fields[i].order != i {
          assert false;
        }
        var value := GetColumn(fields, k, row, pointer, i);
        ReadsMore(db, fields, row, values, value);
        values := values + [value];
        pointer := pointer + fields[i].maxSz;
        i := i + 1;
      }
      ReadsAll(db, fields, row, values);
    }

    /** What happens to be in memory that `malloc` returned. */
    method Leftover(n: nat) returns (pad: seq<byte>)
      ensures |pad| == n
    {
      assert |seq(n, _ => 0 as byte)| == n;
      pad :| |pad| == n;
    }
  }

  /** The extents of a table are the least for its rows. */
  lemma TableExtent(v: View, t: nat)
    requires Inv(v, 0) && t in v.tabs
    ensures v.tabs[t].scale <= ExtentPages(v.tabs[t].rowSize) && v.tabs[t].scale < 0x1_0000 && FREE_PAGES in v.tabs
    ensures TABLE_MIN_ROWS_PER_PAGE * v.tabs[t].rowSize < SYS_PAGE_SIZE * v.tabs[t].scale
  {
    hide Lists, Occupancy, Records, Tiling, PageOk, HeaderSize, Capacity, Least, ExtentPages;
    assert TabOk(v.tabs[t]);
    LeastBound(v.tabs[t].rowSize, v.tabs[t].scale);
  }

  /** The record of a new table has no list heads. */
  lemma NewRecord(name: seq<byte>, pad: seq<byte>, id: nat, fieldsN: nat, scale: nat, rowSize: nat)
    requires |name| + 1 + |pad| == TABLE_NAME_MAX_SZ
    requires id < 0x1_0000 && fieldsN < 0x1_0000 && scale < 0x1_0000 && rowSize < 0x1_0000_0000
    ensures Headless(EncodeTable(name, pad, id, fieldsN, scale, rowSize))
  {
    hide EncodeU16, EncodeU32;
    ZeroEncoded();
  }

  lemma FirstHeadless(pad: seq<byte>)
    requires |pad| == 25
    ensures Headless(FirstRecord(pad))
  {
    hide EncodeTable, Headless;
    NewRecord(TABLES_NAME, pad, 0, 7, 1, TABLE_RECORD_SIZE);
  }

  /** The extent in the record of the free-page table is that of the table. */
  lemma FreeExtent(v: View, scale: nat)
    requires Inv(v, 0) && Least(FREE_ROW_SIZE, scale)
    ensures FREE_PAGES in v.tabs && v.tabs[FREE_PAGES].scale == scale
  {
    hide Lists, Occupancy, Records, Tiling, PageOk, Mappable, Capacity, Least;
    assert TabOk(v.tabs[FREE_PAGES]);
    LeastOnce(FREE_ROW_SIZE, v.tabs[FREE_PAGES].scale, scale);
  }

  /** A row of the table of tables is at a place where a table record can be mapped. */
  lemma RecordPlace(v: View, k: Key)
    requires k in Contents(v) && Headless(Contents(v)[k].row)
    ensures InSlot(v.pages, k) && k.page in v.owner && TableOf(v.owner[k.page]) >= 0
  {
  }

  lemma FirstListed(db: Db, k: Key, row: Row)
    requires db == map[k := Cell(TABLES, row)] && TableId(row) == TABLES && k == Key(RESERVED_TO_FILE_META, 0)
    ensures AllListed(db, map[TABLES := k]) && AtHome(map[TABLES := k])
  {
    hide TableId;
  }

  lemma SameContents(v: View, w: View)
    ensures v.pages == w.pages && v.owner == w.owner ==> Contents(v) == Contents(w)
  {
  }

  lemma NothingYet(db: Db, heaps: set<nat>, fields: Fields, values: seq<Value>, schemes: map<nat, Fields>,
                   tabs: map<nat, Tab>, n: nat, uses: map<Key, Use>, x: Option<Key>, done: nat)
    requires |values| == |fields|
    ensures Prepared(db, db, heaps, fields, values, [], 0, map[])
    ensures Growth(db, heaps, db, heaps, schemes, {})
  {
  }

  lemma GrowthKeeps(a: Db, ha: set<nat>, b: Db, hb: set<nat>, schemes: map<nat, Fields>, added: set<Key>)
    requires Growth(a, ha, b, hb, schemes, added)
    ensures ha <= hb && (forall k :: k in a ==> k in b && b[k] == a[k])
  {
  }

  /** With no row exempt it does not matter how many of its columns are. */
  lemma NoneDropped(db: Db, tabs: map<nat, Tab>, n: nat, schemes: map<nat, Fields>, heaps: set<nat>, uses: map<Key, Use>, m: nat)
    requires Consistent(db, tabs, n, schemes, heaps, uses, None, 0) && NoLeaks(db, schemes, heaps, uses, None, 0)
    ensures Consistent(db, tabs, n, schemes, heaps, uses, None, m) && NoLeaks(db, schemes, heaps, uses, None, m)
    ensures StringsOk(db, schemes, heaps, uses, None, m)
  {
    hide CatalogOk, SchemesOk, ColumnOk;
    forall l | l in db && db[l].table in heaps ensures InUse(db, schemes, uses, l, None, m) {
      assert InUse(db, schemes, uses, l, None, 0);
    }
  }

  lemma CellBytes(v: View, k: Key)
    requires k in Contents(v)
    ensures k.page in v.pages && k.row < |v.pages[k.page].slots|
    ensures v.pages[k.page].slots[k.row] == Some(Contents(v)[k].row)
  {
  }

  /** The column whose turn it is has its string. */
  lemma NextColumn(db: Db, tabs: map<nat, Tab>, n: nat, schemes: map<nat, Fields>, heaps: set<nat>, uses: map<Key, Use>, k: Key, i: nat)
    requires Consistent(db, tabs, n, schemes, heaps, uses, Some(k), i)
    requires k in db && db[k].table in schemes && i < |schemes[db[k].table]|
    ensures ColumnOk(db, schemes, heaps, uses, k, i)
  {
    hide CatalogOk, SchemesOk, ColumnOk;
  }

  lemma AnyColumn(db: Db, tabs: map<nat, Tab>, n: nat, schemes: map<nat, Fields>, heaps: set<nat>, uses: map<Key, Use>, k: Key, i: nat)
    requires Consistent(db, tabs, n, schemes, heaps, uses, None, 0)
    requires k in db && db[k].table in schemes && i < |schemes[db[k].table]|
    ensures ColumnOk(db, schemes, heaps, uses, k, i) && End(schemes[db[k].table], i) <= |db[k].row|
  {
    hide CatalogOk, SchemesOk, RefOk;
  }

  lemma IdOfHeap(row: Row, t: nat)
    requires HeapRowOk(row, t)
    ensures HeapTableId(row) == t
  {
    hide HeapTableId;
  }

  /** A search by id cannot miss a table that is listed. */
  lemma ListedFound(db: Db, t: nat, f: Filter)
    requires exists k :: ListedAt(db, k, t) && forall l :: ListedAt(db, l, t) ==> l == k
    requires forall r: Row :: f(r) <==> TableId(r) == t
    ensures exists l :: l in db && db[l].table == TABLES && f(db[l].row)
  {
    hide TableId;
    var k :| ListedAt(db, k, t);
    assert f(db[k].row);
  }

  lemma FoundId(db: Db, l: Key, t: nat, id: nat)
    requires ListedAt(db, l, t) && TableId(db[l].row) == id
    ensures t == id
  {
    hide TableId;
  }

  lemma NextStrings(fields: Fields, row: Row, i: nat)
    requires i < |fields|
    ensures Strings(fields, row, 0, i + 1) == Strings(fields, row, 0, i) +
      if fields[i].ftype == Str && End(fields, i) <= |row| && |Piece(fields, row, i)| == 8 then {RefOf(Piece(fields, row, i))} else {}
  {
    hide RefOf;
  }

  lemma PlainConsistent(db: Db, tabs: map<nat, Tab>, n: nat, schemes: map<nat, Fields>, heaps: set<nat>, uses: map<Key, Use>, k: Key, i: nat)
    requires k in db && db[k].table in schemes && i < |schemes[db[k].table]| && schemes[db[k].table][i].ftype != Str
    requires Consistent(db, tabs, n, schemes, heaps, uses, Some(k), i) && NoLeaks(db, schemes, heaps, uses, Some(k), i)
    ensures Consistent(db, tabs, n, schemes, heaps, uses, Some(k), i + 1) && NoLeaks(db, schemes, heaps, uses, Some(k), i + 1)
  {
    hide CatalogOk, SchemesOk, NoLeaks, StringsOk;
    PlainColumn(db, schemes, heaps, uses, k, i);
  }

  /** The row itself is not among the strings that went. */
  lemma StringsElsewhere(db: Db, tabs: map<nat, Tab>, n: nat, schemes: map<nat, Fields>, heaps: set<nat>, uses: map<Key, Use>, k: Key, was: Db)
    requires k in db && k in was && (forall l :: l in db ==> l in was && db[l] == was[l]) && db[k].table in schemes
    requires Consistent(db, tabs, n, schemes, heaps, uses, Some(k), |schemes[db[k].table]|)
    ensures db[k] == was[k] && StringsOk(db, schemes, heaps, uses, Some(k), |schemes[db[k].table]|)
  {
    hide CatalogOk, SchemesOk, StringsOk;
  }

  lemma SameElsewhere(a: map<Key, Tuple>, b: map<Key, Tuple>, k: Key, x: Tuple)
    requires a - {k} == b - {k}
    ensures a[k := x] == b[k := x]
  {
    forall l | l != k ensures l in a <==> l in b {
      assert l in a - {k} <==> l in b - {k};
    }
    forall l | l != k && l in a ensures a[l] == b[l] {
      assert (a - {k})[l] == (b - {k})[l];
    }
  }

  lemma HoldSize(fields: Fields, values: seq<Value>)
    requires AllHold(fields, values)
    ensures |values| == |fields|
  {
    hide Holds;
  }

  lemma ReadsNone(db: Db, fields: Fields, row: Row)
    ensures ReadsAs(db, fields, row, [])
  {
  }

  /** The row of the table of tables in itself. */
  function FirstRecord(pad: seq<byte>): (r: Row)
    requires |pad| == 25
    ensures |r| == TABLE_RECORD_SIZE
  {
    EncodeTable(TABLES_NAME, pad, 0, 7, 1, TABLE_RECORD_SIZE)
  }

  lemma FirstSizes(r: Row)
    ensures var v := FirstPage(r);
      && v.tabs.Keys == {TABLES, FREE_PAGES} && v.pagesNumber == RESERVED_TO_FILE_META + 1
      && v.tabs[TABLES].rowSize == TABLE_RECORD_SIZE && v.tabs[TABLES].scale == 1 && v.tabs[FREE_PAGES].rowSize == FREE_ROW_SIZE
  {
  }

  lemma FirstContents(r: Row)
    requires |r| == TABLE_RECORD_SIZE
    ensures Contents(FirstPage(r)) == map[Key(RESERVED_TO_FILE_META, 0) := Cell(TABLES, r)]
  {
    hide Capacity, FirstDataPage, CellAt;
    var k := Key(RESERVED_TO_FILE_META, 0);
    FirstCells(r);
    assert CellAt(FirstPage(r), k) == Some(Cell(TABLES, r));
  }

  lemma FirstCells(r: Row)
    requires |r| == TABLE_RECORD_SIZE
    ensures forall l: Key :: CellAt(FirstPage(r), l) == (if l == Key(RESERVED_TO_FILE_META, 0) then Some(Cell(TABLES, r)) else None)
  {
    hide Capacity;
    FirstSlots(r);
  }

  lemma FirstSlots(r: Row)
    ensures var s := FirstDataPage(r).slots;
      |s| > 0 && s[0] == Some(r) && forall i :: 0 < i < |s| ==> s[i] == None
  {
    CapacityExact(TABLE_RECORD_SIZE, 1, 1);
  }

  lemma FirstReads(pad: seq<byte>)
    requires |pad| == 25
    ensures var r := FirstRecord(pad);
      TableId(r) == TABLES && RecordIs(r, TABLES_NAME, TABLES, |TablesFields()|, 1, TABLE_RECORD_SIZE)
  {
    TableReads(TABLES_NAME, pad, 0, 7, 1, TABLE_RECORD_SIZE);
    CountsRead(TABLES_NAME, pad, 0, 7, 1, TABLE_RECORD_SIZE);
  }

  /** The rows of the table of tables and the records of the tables that every file has. */
  ghost predicate ThreeTables(db: Db, tabs: map<nat, Tab>, k0: Key, k1: Key, k2: Key, r0: Row, r1: Row, r2: Row) {
    && k0 != k1 && k0 != k2 && k1 != k2
    && db == map[k0 := Cell(TABLES, r0)][k1 := Cell(TABLES, r1)][k2 := Cell(TABLES, r2)]
    && tabs.Keys == {TABLES, SCHEME_TABLE, FREE_PAGES}
    && tabs[TABLES].rowSize == TABLE_RECORD_SIZE && tabs[SCHEME_TABLE].rowSize == 14 && tabs[FREE_PAGES].rowSize == FREE_ROW_SIZE
    && RecordIs(r0, TABLES_NAME, TABLES, |TablesFields()|, tabs[TABLES].scale, TABLE_RECORD_SIZE)
    && RecordIs(r1, SCHEME_TABLE_NAME, SCHEME_TABLE, |SchemeFields()|, tabs[SCHEME_TABLE].scale, 14)
    && RecordIs(r2, FREE_PAGES_NAME, FREE_PAGES, |FreePagesFields()|, tabs[FREE_PAGES].scale, FREE_ROW_SIZE)
  }

  /** One row after the other. */
  lemma ThreePut(a: Db, b: Db, c: Db, k1: Key, k2: Key)
    requires k1 !in a && k1 in b && b == a[k1 := Cell(TABLES, b[k1].row)] && k2 !in b && k2 in c && c == b[k2 := Cell(TABLES, c[k2].row)]
    ensures k1 in c && k1 != k2 && c[k1] == b[k1] && c == a[k1 := Cell(TABLES, c[k1].row)][k2 := Cell(TABLES, c[k2].row)]
    ensures forall k :: k in a ==> k != k1 && k != k2
  {
  }

  /** A file with the schema of the schema table only. */
  ghost predicate Started(db: Db, tabs: map<nat, Tab>) {
    && Consistent(db, tabs, 3, map[SCHEME_TABLE := SchemeFields()], {}, map[], None, 0)
    && NoLeaks(db, map[SCHEME_TABLE := SchemeFields()], {}, map[], None, 0)
    && Client(db, map[SCHEME_TABLE := SchemeFields()]) == map[]
  }

  /** Three tables with three rows in the table of tables make a consistent start. */
  lemma Booted(db: Db, tabs: map<nat, Tab>, k0: Key, k1: Key, k2: Key, r0: Row, r1: Row, r2: Row)
    requires ThreeTables(db, tabs, k0, k1, k2, r0, r1, r2)
    ensures Started(db, tabs)
  {
    hide ThreeTables, CatalogOk, CountsOk, SchemesOk, StringsOk, TableId, TableName, TableRowSize, TableScale,
         TableFieldsNumber, ReadRow, SchemeFields, InUse;
    BootedCatalog(db, tabs, k0, k1, k2, r0, r1, r2);
    BootedRows(db, tabs, k0, k1, k2, r0, r1, r2);
    BootedCounts(db, tabs, k0, k1, k2, r0, r1, r2);
    BootedSchemes(db, tabs);
  }

  lemma BootedRows(db: Db, tabs: map<nat, Tab>, k0: Key, k1: Key, k2: Key, r0: Row, r1: Row, r2: Row)
    requires ThreeTables(db, tabs, k0, k1, k2, r0, r1, r2)
    ensures forall k :: k in db ==> db[k].table == TABLES
    ensures TABLES in tabs && SCHEME_TABLE in tabs && tabs[SCHEME_TABLE].rowSize == 14
  {
    hide TableId, TableName, TableRowSize, TableScale, TableFieldsNumber;
  }

  lemma BootedSchemes(db: Db, tabs: map<nat, Tab>)
    requires forall k :: k in db ==> db[k].table == TABLES
    requires SCHEME_TABLE in tabs && tabs[SCHEME_TABLE].rowSize == 14
    ensures SchemesOk(map[SCHEME_TABLE := SchemeFields()], {}, tabs)
    ensures StringsOk(db, map[SCHEME_TABLE := SchemeFields()], {}, map[], None, 0)
  {
    hide SchemeFields, RowSize, SchemeOk, ColumnOk;
    FixedSizes(1);
  }

  lemma BootedCatalog(db: Db, tabs: map<nat, Tab>, k0: Key, k1: Key, k2: Key, r0: Row, r1: Row, r2: Row)
    requires ThreeTables(db, tabs, k0, k1, k2, r0, r1, r2)
    ensures CatalogOk(db, tabs, {}, 3)
  {
    hide TableId, TableName, TableRowSize, TableScale, TableFieldsNumber;
    assert ListedAt(db, k0, TABLES) && ListedAt(db, k1, SCHEME_TABLE) && ListedAt(db, k2, FREE_PAGES);
    NotHeapNames();
  }

  lemma BootedCounts(db: Db, tabs: map<nat, Tab>, k0: Key, k1: Key, k2: Key, r0: Row, r1: Row, r2: Row)
    requires ThreeTables(db, tabs, k0, k1, k2, r0, r1, r2)
    ensures CountsOk(db, map[SCHEME_TABLE := SchemeFields()])
  {
    hide TableId, TableName, TableRowSize, TableScale, TableFieldsNumber, SchemeFields;
  }

  lemma NotHeapNames()
    ensures TABLES_NAME != HEAP_TABLES_NAME && SCHEME_TABLE_NAME != HEAP_TABLES_NAME && FREE_PAGES_NAME != HEAP_TABLES_NAME
  {
    assert TABLES_NAME[0] != HEAP_TABLES_NAME[0] && SCHEME_TABLE_NAME[0] != HEAP_TABLES_NAME[0] && FREE_PAGES_NAME[0] != HEAP_TABLES_NAME[0];
  }

  lemma NoRowsOf(db: Db, tabs: map<nat, Tab>, n: nat, schemes: map<nat, Fields>, heaps: set<nat>, uses: map<Key, Use>, x: Option<Key>, done: nat)
    requires Consistent(db, tabs, n, schemes, heaps, uses, x, done)
    ensures forall l :: l in db ==> db[l].table != n
  {
    hide SchemesOk, StringsOk, Listed, ListedAt, TableId, TableName, TableRowSize, TableScale, TableFieldsNumber;
  }

  lemma HeapSize(len: nat)
    requires 1 <= len <= MAX_HEAP_STRING
    ensures 1 <= HeapRowSize(len) <= MAX_ROW_SIZE && HeapRowSize(len) % HEAP_ROW_SIZE_STEP == 4
    ensures len <= NearestHeapSize(len)
  {
  }

  lemma TablesBelow(db: Db, tabs: map<nat, Tab>, n: nat, schemes: map<nat, Fields>, heaps: set<nat>,
                    uses: map<Key, Use>, x: Option<Key>, done: nat, t: nat)
    requires Consistent(db, tabs, n, schemes, heaps, uses, x, done) && t in tabs
    ensures t < 0x1_0000
  {
    hide TableId, TableName, TableRowSize, TableScale, StringsOk, SchemesOk, Listed, ListedAt;
  }

  lemma InsertedGood(v: View, w: View, t: nat, p: nat, r: nat, row: Row)
    requires RowInserted(v, w, t, p, r, row) && t != FREE_PAGES
    ensures Inv(w, 0) && NoMoving(w) && Transits(w) == Transits(v) && SameTables(v.tabs, w.tabs) && Untouched(v, w, t, 0)
  {
    hide Storage.OnBytes, AllListed, AtHome, Headless, Inv, NoMoving, Transits, RowAt, SameRowsBut;
  }

  lemma RowIsCell(v: View, t: nat, k: Key)
    requires RowAt(v, t, k.page, k.row).Some? && t != FREE_PAGES
    ensures k.page in v.pages && k.row < |v.pages[k.page].slots| && v.pages[k.page].slots[k.row].Some?
    ensures v.pages[k.page].slots[k.row] == RowAt(v, t, k.page, k.row)
    ensures k in Contents(v) && Contents(v)[k] == Cell(t, RowAt(v, t, k.page, k.row).value)
  {
    CellIsRow(v, t, k, RowAt(v, t, k.page, k.row).value);
  }

  lemma NoneListed(v: View, t: nat, f: Filter)
    requires Inv(v, 0) && t in v.tabs && t != FREE_PAGES
    requires ListId(t, false) in v.lists && ListId(t, true) in v.lists && TableHits(v, t, f) == []
    ensures forall k :: k in Contents(v) && Contents(v)[k].table == t ==> !f(Contents(v)[k].row)
  {
    hide Storage.OnBytes, AllListed, AtHome, Headless, Inv, RowAt, TableHits, CellAt;
    InvParts(v, 0);
    TableHitsExact(v, t, f);
    forall k | k in Contents(v) && Contents(v)[k].table == t ensures !f(Contents(v)[k].row) {
      CellIsRow(v, t, k, Contents(v)[k].row);
      assert Key(k.page, k.row) !in TableHits(v, t, f);
    }
  }
}
