/** The table of tables: one row for every table, from which tables are found by name, size or id. */
module Catalog {
  import opened Bytes
  import opened PageLayout
  import opened PageRows
  import opened StorageModel
  import opened StorageFrames
  import opened CursorModel
  import opened TableMap
  import opened RowFormat
  import opened StringStore

  const TABLE_NAME_MAX_SZ: nat := 32

  /** "#heap_table#" */
  const HEAP_TABLES_NAME: seq<byte> := [0x23, 0x68, 0x65, 0x61, 0x70, 0x5F, 0x74, 0x61, 0x62, 0x6C, 0x65, 0x23]

  /** "tables", "scheme_table", "free_pages" */
  const TABLES_NAME: seq<byte> := [0x74, 0x61, 0x62, 0x6C, 0x65, 0x73]
  const SCHEME_TABLE_NAME: seq<byte> := [0x73, 0x63, 0x68, 0x65, 0x6D, 0x65, 0x5F, 0x74, 0x61, 0x62, 0x6C, 0x65]
  const FREE_PAGES_NAME: seq<byte> := [0x66, 0x72, 0x65, 0x65, 0x5F, 0x70, 0x61, 0x67, 0x65, 0x73]

  /** A row of the table of tables; `pad` is what happens to follow the name's terminator. */
  function EncodeTable(name: seq<byte>, pad: seq<byte>, id: nat, fieldsN: nat, scale: nat, rowSize: nat): (r: Row)
    requires |name| + 1 + |pad| == TABLE_NAME_MAX_SZ
    requires id < 0x1_0000 && fieldsN < 0x1_0000 && scale < 0x1_0000 && rowSize < 0x1_0000_0000
    ensures |r| == TABLE_RECORD_SIZE
  {
    name + [0] + pad + EncodeU16(id) + EncodeU16(fieldsN) + EncodeU16(scale) + EncodeU32(rowSize) + EncodeU32(0) + EncodeU32(0)
  }

  function TableName(r: Row): seq<byte> {
    if |r| == TABLE_RECORD_SIZE then CString(r[..32]) else []
  }

  function TableId(r: Row): nat {
    if |r| == TABLE_RECORD_SIZE then U16(r[32..34]) else 0
  }

  function TableRowSize(r: Row): nat {
    if |r| == TABLE_RECORD_SIZE then U32(r[38..42]) else 0
  }

  lemma TableReads(name: seq<byte>, pad: seq<byte>, id: nat, fieldsN: nat, scale: nat, rowSize: nat)
    requires NoNul(name) && |name| + 1 + |pad| == TABLE_NAME_MAX_SZ
    requires id < 0x1_0000 && fieldsN < 0x1_0000 && scale < 0x1_0000 && rowSize < 0x1_0000_0000
    ensures var r := EncodeTable(name, pad, id, fieldsN, scale, rowSize);
      TableName(r) == name && TableId(r) == id && TableRowSize(r) == rowSize
  {
    hide U16, U32, EncodeU16, EncodeU32;
    var r := EncodeTable(name, pad, id, fieldsN, scale, rowSize);
    assert r[..32] == name + [0] + pad;
    CStringReads(name, pad);
    assert r[32..34] == EncodeU16(id);
    assert r[38..42] == EncodeU32(rowSize);
  }

  function TableFieldsNumber(r: Row): nat {
    if |r| == TABLE_RECORD_SIZE then U16(r[34..36]) else 0
  }

  function TableScale(r: Row): nat {
    if |r| == TABLE_RECORD_SIZE then U16(r[36..38]) else 0
  }

  /** So do the number of columns and the extent size. */
  lemma CountsRead(name: seq<byte>, pad: seq<byte>, id: nat, fieldsN: nat, scale: nat, rowSize: nat)
    requires |name| + 1 + |pad| == TABLE_NAME_MAX_SZ
    requires id < 0x1_0000 && fieldsN < 0x1_0000 && scale < 0x1_0000 && rowSize < 0x1_0000_0000
    ensures var r := EncodeTable(name, pad, id, fieldsN, scale, rowSize);
      TableFieldsNumber(r) == fieldsN && TableScale(r) == scale
  {
    hide U16, U32, EncodeU16, EncodeU32;
    var r := EncodeTable(name, pad, id, fieldsN, scale, rowSize);
    assert r[34..36] == EncodeU16(fieldsN);
    assert r[36..38] == EncodeU16(scale);
  }

  /** The table has a row in the table of tables. */
  ghost predicate ListedAt(db: Db, k: Key, t: nat) {
    k in db && db[k].table == TABLES && TableId(db[k].row) == t
  }

  ghost predicate Listed(db: Db, t: nat) {
    exists k :: ListedAt(db, k, t)
  }

  /** Rows of the table of tables and tables correspond, one to one; heap tables are those with the heap name. */
  ghost predicate CatalogOk(db: Db, tabs: map<nat, Tab>, heaps: set<nat>, n: nat) {
    && TABLES in tabs && tabs[TABLES].rowSize == TABLE_RECORD_SIZE && n < 0x1_0000
    && (forall t :: t in tabs ==> t < n && Listed(db, t))
    && (forall k :: k in db && db[k].table == TABLES ==>
          && TableId(db[k].row) in tabs && TableRowSize(db[k].row) == tabs[TableId(db[k].row)].rowSize
          && TableScale(db[k].row) == tabs[TableId(db[k].row)].scale
          && (TableName(db[k].row) == HEAP_TABLES_NAME <==> TableId(db[k].row) in heaps))
    && (forall k, l, t :: ListedAt(db, k, t) && ListedAt(db, l, t) ==> k == l)
  }

  /** The record of a table has the number of its columns. */
  ghost predicate CountsOk(db: Db, schemes: map<nat, Fields>) {
    forall k :: k in db && db[k].table == TABLES && TableId(db[k].row) in schemes ==>
      TableFieldsNumber(db[k].row) == |schemes[TableId(db[k].row)]|
  }

  lemma CountsKept(a: Db, b: Db, schemes: map<nat, Fields>)
    requires CountsOk(a, schemes) && SameCatalog(a, b)
    ensures CountsOk(b, schemes)
  {
    hide TableId, TableFieldsNumber;
  }

  /** What the row of a table in the table of tables holds. */
  predicate RecordIs(r: Row, name: seq<byte>, id: nat, fieldsN: nat, scale: nat, rowSize: nat) {
    && TableName(r) == name && TableId(r) == id && TableFieldsNumber(r) == fieldsN
    && TableScale(r) == scale && TableRowSize(r) == rowSize
  }

  /** The table has a row with this name and these sizes. */
  ghost predicate RecordedAs(db: Db, name: seq<byte>, id: nat, fieldsN: nat, scale: nat, rowSize: nat) {
    exists k :: k in db && db[k].table == TABLES && RecordIs(db[k].row, name, id, fieldsN, scale, rowSize)
  }

  /** The records of tables are mapped where their rows are. */
  ghost predicate AllListed(db: Db, homes: map<nat, Key>) {
    forall t :: t in homes ==> ListedAt(db, homes[t], t)
  }

  /** The record of the table of tables is where a new file puts it. */
  ghost predicate AtHome(homes: map<nat, Key>) {
    TABLES in homes && homes[TABLES] == Key(RESERVED_TO_FILE_META, 0)
  }

  /** They stay when no row of the table of tables changes. */
  lemma ListedStill(a: Db, b: Db, homes: map<nat, Key>)
    requires AllListed(a, homes) && forall k :: k in a && a[k].table == TABLES ==> k in b && b[k] == a[k]
    ensures AllListed(b, homes)
  {
    hide TableId;
    forall t | t in homes ensures ListedAt(b, homes[t], t) {
      assert ListedAt(a, homes[t], t);
    }
  }

  lemma OneMoreListed(db: Db, homes: map<nat, Key>, t: nat, k: Key)
    requires AllListed(db, homes) && ListedAt(db, k, t)
    ensures AllListed(db, homes[t := k]) && (t != TABLES && AtHome(homes) ==> AtHome(homes[t := k]))
  {
    hide ListedAt;
  }

  /** The client tables and the heap tables. */
  ghost predicate SchemesOk(schemes: map<nat, Fields>, heaps: set<nat>, tabs: map<nat, Tab>) {
    && (forall t :: t in schemes ==>
          t in tabs && tabs[t].rowSize == RowSize(schemes[t]) && t != TABLES && t != FREE_PAGES)
    && (forall h :: h in heaps ==>
          h in tabs && tabs[h].rowSize % HEAP_ROW_SIZE_STEP == 4 && h != TABLES && h != FREE_PAGES)
    && (forall g, h :: g in heaps && h in heaps && g in tabs && h in tabs && tabs[g].rowSize == tabs[h].rowSize ==> g == h)
  }

  /** There is no heap table for rows of this size. */
  ghost predicate NewSize(heaps: set<nat>, tabs: map<nat, Tab>, rowSize: nat) {
    forall h :: h in heaps && h in tabs ==> tabs[h].rowSize != rowSize
  }

  /** The row sizes of the heap tables. */
  ghost function HeapSizes(heaps: set<nat>, tabs: map<nat, Tab>): set<nat> {
    set h | h in heaps && h in tabs :: tabs[h].rowSize
  }

  lemma SizesKept(heaps: set<nat>, v: map<nat, Tab>, w: map<nat, Tab>)
    requires SameTables(v, w)
    ensures HeapSizes(heaps, v) == HeapSizes(heaps, w)
  {
    forall s ensures s in HeapSizes(heaps, v) <==> s in HeapSizes(heaps, w) {
      if s in HeapSizes(heaps, v) {
        var h :| h in heaps && h in v && v[h].rowSize == s;
        assert h in w && w[h].rowSize == s;
      }
      if s in HeapSizes(heaps, w) {
        var h :| h in heaps && h in w && w[h].rowSize == s;
        assert h in v && v[h].rowSize == s;
      }
    }
  }

  /** A table more; it is a heap table, or it is none. */
  lemma SizesExtended(heaps: set<nat>, v: map<nat, Tab>, n: nat, tab: Tab)
    requires n !in heaps
    ensures HeapSizes(heaps, v[n := tab]) == HeapSizes(heaps, v)
    ensures HeapSizes(heaps + {n}, v[n := tab]) == HeapSizes(heaps, v) + {tab.rowSize}
  {
    var w := v[n := tab];
    forall s ensures s in HeapSizes(heaps, v) <==> s in HeapSizes(heaps, w) {
      if s in HeapSizes(heaps, v) {
        var h :| h in heaps && h in v && v[h].rowSize == s;
        assert h in w && w[h].rowSize == s;
      }
      if s in HeapSizes(heaps, w) {
        var h :| h in heaps && h in w && w[h].rowSize == s;
        assert h in v && v[h].rowSize == s;
      }
    }
    forall s ensures s in HeapSizes(heaps + {n}, w) <==> s in HeapSizes(heaps, w) || s == tab.rowSize {
      if s in HeapSizes(heaps, w) {
        var h :| h in heaps && h in w && w[h].rowSize == s;
        assert h in heaps + {n};
      }
      if s == tab.rowSize {
        assert n in heaps + {n} && n in w && w[n].rowSize == s;
      }
    }
  }

  /** A table more, with other list heads in the records of the others. */
  lemma SizesAdded(heaps: set<nat>, v: map<nat, Tab>, w: map<nat, Tab>, n: nat, tab: Tab, isHeap: bool)
    requires SameTables(v, w) && n !in heaps
    ensures HeapSizes(heaps + if isHeap then {n} else {}, w[n := tab]) == HeapSizes(heaps, v) + if isHeap then {tab.rowSize} else {}
  {
    hide SameTables, HeapSizes;
    SizesKept(heaps, v, w);
    SizesExtended(heaps, w, n, tab);
    assert heaps + {} == heaps;
  }

  lemma SizeThere(heaps: set<nat>, tabs: map<nat, Tab>, h: nat)
    requires h in heaps && h in tabs
    ensures tabs[h].rowSize in HeapSizes(heaps, tabs)
  {
  }

  /** There are as many heap tables as sizes. */
  lemma {:induction false} SizesCount(heaps: set<nat>, tabs: map<nat, Tab>)
    requires heaps <= tabs.Keys && forall g, h :: g in heaps && h in heaps && tabs[g].rowSize == tabs[h].rowSize ==> g == h
    ensures |HeapSizes(heaps, tabs)| == |heaps|
    decreases |heaps|
  {
    if heaps == {} {
      assert HeapSizes(heaps, tabs) == {};
    } else {
      var h :| h in heaps;
      SizesCount(heaps - {h}, tabs);
      SizesExtended(heaps - {h}, tabs, h, tabs[h]);
      assert heaps - {h} + {h} == heaps && tabs[h := tabs[h]] == tabs;
      assert forall g :: g in heaps - {h} ==> tabs[g].rowSize != tabs[h].rowSize;
    }
  }

  /** Table records that differ at most in their list heads. */
  ghost predicate SameTables(a: map<nat, Tab>, b: map<nat, Tab>) {
    a.Keys == b.Keys && forall t :: t in a ==> b[t].rowSize == a[t].rowSize && b[t].scale == a[t].scale
  }

  ghost predicate SameCatalog(a: Db, b: Db) {
    && (forall k :: k in a && a[k].table == TABLES ==> k in b && b[k] == a[k])
    && (forall k :: k in b && b[k].table == TABLES ==> k in a && b[k] == a[k])
  }

  lemma CatalogKept(a: Db, b: Db, v: map<nat, Tab>, w: map<nat, Tab>, heaps: set<nat>, n: nat)
    requires CatalogOk(a, v, heaps, n) && SameTables(v, w) && SameCatalog(a, b)
    ensures CatalogOk(b, w, heaps, n)
  {
    hide TableId, TableName, TableRowSize, TableScale;
    forall t | t in w ensures t < n && Listed(b, t) {
      assert Listed(a, t);
      var k :| ListedAt(a, k, t);
      assert ListedAt(b, k, t);
    }
    forall k, l, t | ListedAt(b, k, t) && ListedAt(b, l, t) ensures k == l {
      assert ListedAt(a, k, t) && ListedAt(a, l, t);
    }
  }

  /** A new table and its row. */
  lemma CatalogExtended(a: Db, v: map<nat, Tab>, heaps: set<nat>, n: nat, k: Key, row: Row, tab: Tab, more: set<nat>)
    requires CatalogOk(a, v, heaps, n) && n + 1 < 0x1_0000 && k !in a
    requires TableId(row) == n && TableRowSize(row) == tab.rowSize && TableScale(row) == tab.scale && n !in heaps
    requires more == heaps + if TableName(row) == HEAP_TABLES_NAME then {n} else {}
    ensures CatalogOk(a[k := Cell(TABLES, row)], v[n := tab], more, n + 1)
  {
    hide TableId, TableName, TableRowSize, TableScale;
    var b := a[k := Cell(TABLES, row)];
    assert n !in v;
    forall l ensures !ListedAt(a, l, n) {
      assert ListedAt(a, l, n) ==> n in v;
    }
    forall t | t in v[n := tab] ensures t < n + 1 && Listed(b, t) {
      if t == n {
        assert ListedAt(b, k, t);
      } else {
        assert Listed(a, t);
        var l :| ListedAt(a, l, t);
        assert ListedAt(b, l, t);
      }
    }
    forall i, j, t | ListedAt(b, i, t) && ListedAt(b, j, t) ensures i == j {
      assert i != k ==> ListedAt(a, i, t);
      assert j != k ==> ListedAt(a, j, t);
    }
  }

  /** Rows have the size of their table, and their places fit in 32 bits. */
  lemma CellFits(v: View, k: Key)
    requires Inv(v, 0) && k in Contents(v)
    ensures var c := Contents(v)[k];
      && c.table in v.tabs && |c.row| == v.tabs[c.table].rowSize
      && k.page < 0x1_0000_0000 && k.row < 0x1_0000_0000
  {
    hide Lists, Occupancy, Records;
    var g := v.pages[k.page];
    assert PageOk(g) && Fits(g, v.owner[k.page], v.tabs);
    SlotBound(g.rowSize, g.scale);
  }

  lemma SlotBound(rowSize: nat, scale: nat)
    requires 1 <= scale < 0x1_0000
    ensures Capacity(rowSize, scale) < 0x1_0000_0000
  {
    CapacityExact(rowSize, scale, Capacity(rowSize, scale));
  }

  lemma UntouchedTables(v: View, w: View, t: nat)
    requires Untouched(v, w, t, 0)
    ensures SameTables(v.tabs, w.tabs)
  {
  }

  lemma SchemesKept(schemes: map<nat, Fields>, heaps: set<nat>, v: map<nat, Tab>, w: map<nat, Tab>)
    requires SchemesOk(schemes, heaps, v) && SameTables(v, w)
    ensures SchemesOk(schemes, heaps, w)
  {
  }

  lemma SchemesExtended(schemes: map<nat, Fields>, heaps: set<nat>, v: map<nat, Tab>, n: nat, tab: Tab, more: set<nat>)
    requires SchemesOk(schemes, heaps, v) && n !in v && n > FREE_PAGES
    requires more == heaps || (more == heaps + {n} && tab.rowSize % HEAP_ROW_SIZE_STEP == 4 && NewSize(heaps, v, tab.rowSize))
    ensures SchemesOk(schemes, more, v[n := tab])
    ensures schemes.Keys !! heaps ==> schemes.Keys !! more
  {
  }

  /** A table's size is good for `TabOk` when the search for the extent size found it. */
  lemma SizedTable(rowSize: nat, scale: nat)
    requires 1 <= rowSize <= MAX_ROW_SIZE && Least(rowSize, scale)
    ensures TabOk(Tab(rowSize, scale, 0, 0))
  {
    TenRows(rowSize, scale);
    BitmapInFirstPage(rowSize, scale);
  }
}
