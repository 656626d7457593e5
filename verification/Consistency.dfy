/** The state of tables, catalog and strings together, and the steps that keep it. */
module Consistency {
  import opened Common
  import opened PageRows
  import opened StorageModel
  import opened CursorModel
  import opened TableMap
  import opened RowFormat
  import opened StringStore
  import opened Catalog

  /** In order, except for the first `done` string columns of row `x`; `n` is the next table id. */
  ghost predicate Consistent(db: Db, tabs: map<nat, Tab>, n: nat, schemes: map<nat, Fields>, heaps: set<nat>,
                             uses: map<Key, Use>, x: Option<Key>, done: nat) {
    && n > FREE_PAGES && (forall k :: k in db ==> db[k].table in tabs)
    && CatalogOk(db, tabs, heaps, n) && CountsOk(db, schemes) && SchemesOk(schemes, heaps, tabs)
    && StringsOk(db, schemes, heaps, uses, x, done)
  }

  lemma ConsistentNames(db: Db, tabs: map<nat, Tab>, n: nat, schemes: map<nat, Fields>, heaps: set<nat>,
                        uses: map<Key, Use>, x: Option<Key>, done: nat)
    requires Consistent(db, tabs, n, schemes, heaps, uses, x, done)
    ensures TABLES in tabs && tabs[TABLES].rowSize == TABLE_RECORD_SIZE && n !in tabs && FREE_PAGES < n < 0x1_0000
    ensures TABLES !in schemes && TABLES !in heaps && FREE_PAGES !in schemes && FREE_PAGES !in heaps && schemes.Keys !! heaps
    ensures schemes.Keys <= tabs.Keys && heaps <= tabs.Keys
    ensures forall t :: t in schemes ==> tabs[t].rowSize == RowSize(schemes[t]) && SchemeOk(schemes[t])
  {
    hide ColumnOk, Listed, ListedAt, TableId, TableName, TableRowSize, TableScale;
  }

  lemma SameCatalogPut(a: Db, k: Key, c: Cell)
    requires c.table != TABLES && (k in a ==> a[k].table != TABLES)
    ensures SameCatalog(a, a[k := c]) && SameCatalog(a, a)
  {
  }

  lemma SameCatalogDrop(a: Db, k: Key)
    requires k in a ==> a[k].table != TABLES
    ensures SameCatalog(a, a - {k})
  {
  }

  lemma SameIds(v: map<nat, Tab>, w: map<nat, Tab>)
    requires SameTables(v, w)
    ensures v.Keys == w.Keys
  {
  }

  lemma Reference(db: Db, schemes: map<nat, Fields>, heaps: set<nat>, uses: map<Key, Use>, k: Key, i: nat)
    requires k in db && db[k].table in schemes && i < |schemes[db[k].table]| && schemes[db[k].table][i].ftype == Str
    requires ColumnOk(db, schemes, heaps, uses, k, i)
    ensures var fields := schemes[db[k].table];
      && End(fields, i) <= |db[k].row| && |Piece(fields, db[k].row, i)| == 8
      && var loc := RefOf(Piece(fields, db[k].row, i));
      && loc in db && db[loc].table in heaps && loc in uses && uses[loc] == Use(k, i) && HeapRowOk(db[loc].row, db[loc].table)
  {
    hide HeapRowOk;
  }

  /** A heap table that the search by size finds has exactly the size for the string. */
  lemma FoundHeap(db: Db, tabs: map<nat, Tab>, n: nat, schemes: map<nat, Fields>, heaps: set<nat>,
                  uses: map<Key, Use>, x: Option<Key>, done: nat, k: Key, t: nat, len: nat)
    requires Consistent(db, tabs, n, schemes, heaps, uses, x, done) && ListedAt(db, k, t) && 1 <= len <= MAX_HEAP_STRING
    requires TableName(db[k].row) == HEAP_TABLES_NAME && InWindow(len, TableRowSize(db[k].row))
    ensures t in heaps && t in tabs && tabs[t].rowSize == HeapRowSize(len)
  {
    hide TableId, TableName, TableRowSize, TableScale, StringsOk, InWindow, HeapRowSize;
    WindowExact(len);
    assert tabs[t].rowSize == 4 + HEAP_ROW_SIZE_STEP * (tabs[t].rowSize / HEAP_ROW_SIZE_STEP);
  }

  /** The search by size finds the heap table for the string, if there is one. */
  lemma HeapListed(db: Db, tabs: map<nat, Tab>, n: nat, schemes: map<nat, Fields>, heaps: set<nat>,
                   uses: map<Key, Use>, x: Option<Key>, done: nat, len: nat) returns (k: Key)
    requires Consistent(db, tabs, n, schemes, heaps, uses, x, done) && 1 <= len <= MAX_HEAP_STRING
    requires HeapRowSize(len) in HeapSizes(heaps, tabs)
    ensures k in db && db[k].table == TABLES && TableName(db[k].row) == HEAP_TABLES_NAME && InWindow(len, TableRowSize(db[k].row))
  {
    hide TableId, TableName, TableRowSize, TableScale, StringsOk, InWindow, HeapRowSize;
    var h :| h in heaps && h in tabs && tabs[h].rowSize == HeapRowSize(len);
    assert Listed(db, h);
    k :| ListedAt(db, k, h);
    WindowExact(len);
  }

  /** Otherwise there is none of that size. */
  lemma NoHeap(heaps: set<nat>, tabs: map<nat, Tab>, rowSize: nat)
    requires rowSize !in HeapSizes(heaps, tabs)
    ensures NewSize(heaps, tabs, rowSize)
  {
  }

  /** Every table has its row in the table of tables, and only one. */
  lemma ListedOnce(db: Db, tabs: map<nat, Tab>, n: nat, schemes: map<nat, Fields>, heaps: set<nat>,
                   uses: map<Key, Use>, x: Option<Key>, done: nat, t: nat)
    requires Consistent(db, tabs, n, schemes, heaps, uses, x, done) && t in tabs
    ensures exists k :: ListedAt(db, k, t) && forall l :: ListedAt(db, l, t) ==> l == k
  {
    hide TableId, TableName, TableRowSize, TableScale, StringsOk, SchemesOk;
    assert Listed(db, t);
    var k :| ListedAt(db, k, t);
  }

  /** A new table and its row in the table of tables. */
  lemma TableAdded(a: Db, v: map<nat, Tab>, w: map<nat, Tab>, schemes: map<nat, Fields>, heaps: set<nat>, n: nat, k: Key, row: Row,
                   tab: Tab, more: set<nat>, uses: map<Key, Use>, x: Option<Key>, done: nat)
    requires Consistent(a, v, n, schemes, heaps, uses, x, done)
    requires SameTables(v, w) && n + 1 < 0x1_0000 && k !in a
    requires TableId(row) == n && TableRowSize(row) == tab.rowSize && TableScale(row) == tab.scale
    requires if TableName(row) == HEAP_TABLES_NAME
             then more == heaps + {n} && tab.rowSize % HEAP_ROW_SIZE_STEP == 4 && NewSize(heaps, v, tab.rowSize)
             else more == heaps
    ensures var b := a[k := Cell(TABLES, row)];
      && Consistent(b, w[n := tab], n + 1, schemes, more, uses, x, done)
      && Growth(a, heaps, b, more, schemes, {})
  {
    hide SameCatalog, CatalogOk, CountsOk, StringsOk, SchemesOk, SameTables, ColumnOk, TableId, TableName, TableRowSize, TableScale;
    ConsistentNames(a, v, n, schemes, heaps, uses, x, done);
    SameCatalogPut(a, k, Cell(n, row));
    CatalogKept(a, a, v, w, heaps, n);
    SchemesKept(schemes, heaps, v, w);
    SameIds(v, w);
    CatalogExtended(a, w, heaps, n, k, row, tab, more);
    NewSizeKept(heaps, v, w, tab.rowSize);
    SchemesExtended(schemes, heaps, w, n, tab, more);
    CountsAdded(a, schemes, n, k, row);
    GrownStrings(a, a[k := Cell(TABLES, row)], schemes, heaps, more, uses, x, done);
  }

  lemma NewSizeKept(heaps: set<nat>, v: map<nat, Tab>, w: map<nat, Tab>, rowSize: nat)
    requires SameTables(v, w)
    ensures NewSize(heaps, v, rowSize) ==> NewSize(heaps, w, rowSize)
  {
  }

  lemma CountsAdded(a: Db, schemes: map<nat, Fields>, n: nat, k: Key, row: Row)
    requires CountsOk(a, schemes) && n !in schemes && TableId(row) == n
    ensures CountsOk(a[k := Cell(TABLES, row)], schemes)
  {
    hide TableId, TableFieldsNumber;
  }

  /** A new row in a heap table. */
  lemma HeapRowAdded(a: Db, v: map<nat, Tab>, w: map<nat, Tab>, schemes: map<nat, Fields>, heaps: set<nat>, n: nat, k: Key, row: Row,
                     t: nat, uses: map<Key, Use>, x: Option<Key>, done: nat)
    requires Consistent(a, v, n, schemes, heaps, uses, x, done)
    requires SameTables(v, w) && k !in a && t in heaps
    ensures var b := a[k := Cell(t, row)];
      && Consistent(b, w, n, schemes, heaps, uses, x, done) && Growth(a, heaps, b, heaps, schemes, {k})
  {
    hide SameCatalog, CatalogOk, CountsOk, StringsOk, SchemesOk, SameTables, ColumnOk;
    ConsistentNames(a, v, n, schemes, heaps, uses, x, done);
    SameCatalogPut(a, k, Cell(t, row));
    CatalogKept(a, a[k := Cell(t, row)], v, w, heaps, n);
    CountsKept(a, a[k := Cell(t, row)], schemes);
    SchemesKept(schemes, heaps, v, w);
    SameIds(v, w);
    GrownStrings(a, a[k := Cell(t, row)], schemes, heaps, heaps, uses, x, done);
  }

  /** Prepared bytes put in a new row, or over row `x`. */
  lemma RowPut(base: Db, db: Db, v: map<nat, Tab>, w: map<nat, Tab>, schemes: map<nat, Fields>, was: set<nat>, heaps: set<nat>, n: nat,
               uses: map<Key, Use>, x: Option<Key>, t: nat, values: seq<Value>, row: Row, added: map<Key, nat>, k: Key)
    requires t in schemes && |values| == |schemes[t]|
    requires StringsOk(base, schemes, was, uses, x, |schemes[t]|) && NoLeaks(base, schemes, was, uses, x, |schemes[t]|)
    requires Consistent(db, v, n, schemes, heaps, uses, x, |schemes[t]|) && SameTables(v, w)
    requires Growth(base, was, db, heaps, schemes, added.Keys)
    requires Prepared(base, db, heaps, schemes[t], values, row, |schemes[t]|, added)
    requires if k in db then x == Some(k) && k in base && db[k].table == t else x == None
    ensures var after := db[k := Cell(t, row)];
      && Consistent(after, w, n, schemes, heaps, Uses(uses, added, k), None, 0)
      && NoLeaks(after, schemes, heaps, Uses(uses, added, k), None, 0)
      && Client(after, schemes) == Client(base, schemes)[k := Tuple(t, Stored(values))]
  {
    hide SameCatalog, CatalogOk, CountsOk, StringsOk, SchemesOk, SameTables, ColumnOk, NoLeaks, Prepared, ReadRow, Client, Stored, Uses;
    ConsistentNames(db, v, n, schemes, heaps, uses, x, |schemes[t]|);
    GrownStrings(base, base, schemes, was, heaps, uses, x, |schemes[t]|);
    RowStored(base, db, schemes, heaps, uses, x, t, values, row, added, k);
    StoredNoLeaks(base, was, db, schemes, heaps, uses, x, t, values, row, added, k);
    ClientStored(base, db, schemes, heaps, uses, x, t, values, row, k, |schemes[t]|);
    SameCatalogPut(db, k, Cell(t, row));
    CatalogKept(db, db[k := Cell(t, row)], v, w, heaps, n);
    CountsKept(db, db[k := Cell(t, row)], schemes);
    SchemesKept(schemes, heaps, v, w);
    SameIds(v, w);
  }

  /** The string of column `i` of row `k`, which is about to go, is dropped. */
  lemma StringRemoved(db: Db, v: map<nat, Tab>, w: map<nat, Tab>, schemes: map<nat, Fields>, heaps: set<nat>, n: nat,
                      uses: map<Key, Use>, k: Key, i: nat, loc: Key)
    requires k in db && db[k].table in schemes && i < |schemes[db[k].table]| && schemes[db[k].table][i].ftype == Str
    requires Consistent(db, v, n, schemes, heaps, uses, Some(k), i) && NoLeaks(db, schemes, heaps, uses, Some(k), i)
    requires ColumnOk(db, schemes, heaps, uses, k, i) && loc == RefOf(Piece(schemes[db[k].table], db[k].row, i))
    requires SameTables(v, w)
    ensures Consistent(db - {loc}, w, n, schemes, heaps, uses, Some(k), i + 1)
    ensures NoLeaks(db - {loc}, schemes, heaps, uses, Some(k), i + 1)
    ensures Client(db - {loc}, schemes) - {k} == Client(db, schemes) - {k} && loc != k
  {
    hide SameCatalog, CatalogOk, CountsOk, StringsOk, SchemesOk, SameTables, ColumnOk, NoLeaks, HeapRowOk, Client;
    ConsistentNames(db, v, n, schemes, heaps, uses, Some(k), i);
    Reference(db, schemes, heaps, uses, k, i);
    StringDropped(db, schemes, heaps, uses, k, i);
    StringDroppedNoLeaks(db, schemes, heaps, uses, k, i, loc);
    ClientStringDropped(db, schemes, heaps, uses, k, i, loc);
    SameCatalogDrop(db, loc);
    CatalogKept(db, db - {loc}, v, w, heaps, n);
    CountsKept(db, db - {loc}, schemes);
    SchemesKept(schemes, heaps, v, w);
    SameIds(v, w);
  }

  /** A column without a string needs nothing done. */
  lemma PlainColumn(db: Db, schemes: map<nat, Fields>, heaps: set<nat>, uses: map<Key, Use>, k: Key, i: nat)
    requires k in db && db[k].table in schemes && i < |schemes[db[k].table]| && schemes[db[k].table][i].ftype != Str
    requires NoLeaks(db, schemes, heaps, uses, Some(k), i)
    ensures NoLeaks(db, schemes, heaps, uses, Some(k), i + 1)
    ensures StringsOk(db, schemes, heaps, uses, Some(k), i) ==> StringsOk(db, schemes, heaps, uses, Some(k), i + 1)
  {
    hide ColumnOk;
    forall l | l in db && db[l].table in heaps ensures InUse(db, schemes, uses, l, Some(k), i + 1) {
      assert InUse(db, schemes, uses, l, Some(k), i);
    }
  }

  /** A row whose strings are gone is dropped. */
  lemma RowGone(db: Db, v: map<nat, Tab>, w: map<nat, Tab>, schemes: map<nat, Fields>, heaps: set<nat>, n: nat,
                uses: map<Key, Use>, k: Key)
    requires k in db && db[k].table in schemes
    requires Consistent(db, v, n, schemes, heaps, uses, Some(k), |schemes[db[k].table]|)
    requires NoLeaks(db, schemes, heaps, uses, Some(k), |schemes[db[k].table]|) && SameTables(v, w)
    ensures Consistent(db - {k}, w, n, schemes, heaps, uses, None, 0)
    ensures NoLeaks(db - {k}, schemes, heaps, uses, None, 0)
    ensures Client(db - {k}, schemes) == Client(db, schemes) - {k}
  {
    hide SameCatalog, CatalogOk, CountsOk, StringsOk, SchemesOk, SameTables, ColumnOk, NoLeaks, Client;
    var m := |schemes[db[k].table]|;
    ConsistentNames(db, v, n, schemes, heaps, uses, Some(k), m);
    RowDropped(db, schemes, heaps, uses, k, m);
    RowDroppedNoLeaks(db, schemes, heaps, uses, k, m);
    ClientRowDropped(db, schemes, heaps, uses, k, m);
    SameCatalogDrop(db, k);
    CatalogKept(db, db - {k}, v, w, heaps, n);
    CountsKept(db, db - {k}, schemes);
    SchemesKept(schemes, heaps, v, w);
    SameIds(v, w);
  }

  /** All columns of a row are in order when no row is exempt. */
  lemma NoneExempt(db: Db, tabs: map<nat, Tab>, n: nat, schemes: map<nat, Fields>, heaps: set<nat>, uses: map<Key, Use>, k: Key)
    requires Consistent(db, tabs, n, schemes, heaps, uses, None, 0) && NoLeaks(db, schemes, heaps, uses, None, 0)
    ensures Consistent(db, tabs, n, schemes, heaps, uses, Some(k), 0) && NoLeaks(db, schemes, heaps, uses, Some(k), 0)
  {
    hide CatalogOk, CountsOk, SchemesOk, ColumnOk;
    forall l | l in db && db[l].table in heaps ensures InUse(db, schemes, uses, l, Some(k), 0) {
      assert InUse(db, schemes, uses, l, None, 0);
    }
  }
}
