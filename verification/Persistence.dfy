/** The file determines the database: what the engine knows beside the bytes can be told from the bytes. */
module Persistence {
  import opened Common
  import opened Bytes
  import opened PageLayout
  import opened PageRows
  import MappedPage
  import opened FileImage
  import opened StorageModel
  import opened StorageFrames
  import opened CursorModel
  import opened ListHeads
  import opened TableMap
  import opened StringStore
  import opened Catalog
  import opened Databases

  /** What the engine knows of a file. */
  datatype Knowledge = Knowledge(v: View, disk: map<nat, Page>, homes: map<nat, Key>, records: map<Key, nat>, tablesNumber: nat, heaps: set<nat>)

  /** It is true of the bytes. */
  ghost predicate True(file: seq<byte>, x: Knowledge) {
    && Image(file, x.disk) && Counts(Header(file), x.tablesNumber, x.v.pagesNumber) && Inv(x.v, 0)
    && Mirrors(x.disk, x.v.pages, x.v.tabs, x.records) && Placed(x.v.pages, x.v.tabs, x.homes, x.records)
    && x.homes.Keys == x.v.tabs.Keys && AllListed(Contents(x.v), x.homes) && AtHome(x.homes)
    && CatalogOk(Contents(x.v), x.v.tabs, x.heaps, x.tablesNumber)
  }

  ghost function KnowledgeOf(db: Database): Knowledge
    reads db, db.st
  {
    Knowledge(db.st.V(), db.st.disk, db.st.homes, db.st.records, db.st.tablesNumber, db.heaps)
  }

  lemma ValidIsTrue(db: Database)
    requires db.Valid()
    ensures True(db.st.bytes, KnowledgeOf(db))
  {
    hide Image, Counts, Header, Inv, Mirrors, Placed, AllListed, AtHome, CatalogOk, SchemesOk, StringsOk, NoLeaks,
         Contents, NoMoving, Transits;
  }

  // ---------------------------------------------------------------- pages

  /** The same extent stands for one page only. */
  lemma SamePage(file: seq<byte>, d: map<nat, Page>, e: map<nat, Page>, p: nat)
    requires Image(file, d) && Image(file, e) && p in d && p in e
    ensures d[p] == e[p]
  {
    hide Apart, Window, MappedPage.RecordAt, Capacity, MappedPage.SlotsOf, MappedPage.PaddingClear;
    assert Inside(file, p, d[p]) && Inside(file, p, e[p]);
    FirstPageReads(file, p, d[p]);
    FirstPageReads(file, p, e[p]);
  }

  lemma SameShapes(file: seq<byte>, x: Knowledge, y: Knowledge, p: nat)
    requires True(file, x) && True(file, y) && p in x.v.pages && p in y.v.pages
    ensures p in x.disk && p in y.disk && x.disk[p] == y.disk[p] && SameShape(x.v.pages[p], y.v.pages[p])
  {
    hide Image, Counts, Header, Inv, Placed, AllListed, AtHome, CatalogOk, OnDisk, Contents;
    SamePage(file, x.disk, y.disk, p);
  }

  // ---------------------------------------------------------------- lists

  /** Where the links agree, a list with the same head is the same list. */
  lemma {:induction false} SameStart(a: map<nat, Page>, b: map<nat, Page>, s: seq<nat>, t: seq<nat>, head: nat, n: nat)
    requires Chain(a, s, head) && Chain(b, t, head) && n <= |s|
    requires forall p :: p in a && p in b ==> a[p].next == b[p].next
    ensures n <= |t| && s[..n] == t[..n]
  {
    if n > 0 {
      SameStart(a, b, s, t, head, n - 1);
      if n == 1 {
        assert At(s, 0) == head == At(t, 0);
      } else {
        assert s[n - 2] == s[..n - 1][n - 2] == t[..n - 1][n - 2] == t[n - 2];
        assert Linked(a, s, n - 2) && Linked(b, t, n - 2);
      }
      assert s[n - 1] == t[n - 1];
    }
  }

  lemma SameListWith(a: map<nat, Page>, b: map<nat, Page>, s: seq<nat>, t: seq<nat>, head: nat)
    requires Chain(a, s, head) && Chain(b, t, head) && forall p :: p in a && p in b ==> a[p].next == b[p].next
    ensures s == t
  {
    hide Chain;
    SameStart(a, b, s, t, head, |s|);
    SameStart(b, a, t, s, head, |t|);
  }

  lemma SameList(file: seq<byte>, x: Knowledge, y: Knowledge, id: ListId)
    requires True(file, x) && True(file, y) && id.tid in x.v.tabs && id.tid in y.v.tabs
    requires Head(x.v.tabs, id) == Head(y.v.tabs, id)
    ensures id in x.v.lists && id in y.v.lists && x.v.lists[id] == y.v.lists[id]
  {
    hide Image, Counts, Header, Mirrors, Placed, AllListed, AtHome, CatalogOk, Contents, Chain, Occupancy, Records,
         Tiling, TabOk, PageOk;
    forall p | p in x.v.pages && p in y.v.pages ensures x.v.pages[p].next == y.v.pages[p].next {
      SameShapes(file, x, y, p);
    }
    SameListWith(x.v.pages, y.v.pages, x.v.lists[id], y.v.lists[id], Head(x.v.tabs, id));
  }

  // ---------------------------------------------------------------- rows

  /** The rows of the table of tables are the records. */
  lemma RecordsAreCells(file: seq<byte>, x: Knowledge, k: Key)
    requires True(file, x)
    ensures k in x.records <==> k in Contents(x.v) && Contents(x.v)[k].table == TABLES
    ensures k in x.records ==> TableId(Contents(x.v)[k].row) == x.records[k] && x.records[k] in x.v.tabs
  {
    hide Image, Counts, Header, Inv, Mirrors, AtHome, Contents, TableId, TableName, TableRowSize, InSlot, Listed;
    if k in x.records {
      assert ListedAt(Contents(x.v), k, x.records[k]);
    }
    if k in Contents(x.v) && Contents(x.v)[k].table == TABLES {
      var t := TableId(Contents(x.v)[k].row);
      assert ListedAt(Contents(x.v), k, t) && ListedAt(Contents(x.v), x.homes[t], t);
    }
  }

  /** A slot on disk, for a row that the engine sees. */
  lemma CellOnDisk(file: seq<byte>, x: Knowledge, k: Key)
    requires True(file, x) && k in Contents(x.v)
    ensures k.page in x.disk && k.row < |x.disk[k.page].slots|
    ensures Contents(x.v)[k].table != TABLES ==> x.disk[k.page].slots[k.row] == Some(Contents(x.v)[k].row)
    ensures Contents(x.v)[k].table == TABLES ==>
      var row := Contents(x.v)[k].row;
      && Headless(row) && TableId(row) in x.v.tabs && x.disk[k.page].slots[k.row] == Some(WithHeads(row, x.v.tabs[TableId(row)]))
  {
    hide Image, Counts, Header, Inv, AllListed, AtHome, CatalogOk, WithHeads, Headless, TableId;
    RecordsAreCells(file, x, k);
    assert k == Key(k.page, k.row);
    assert x.disk[k.page].slots[k.row] == OnDisk(x.v.pages[k.page].slots[k.row], x.v.tabs, x.records, k);
    if k in x.records {
      assert InSlot(x.v.pages, k);
    }
  }

  /** Rows without list heads are told from the rows with them. */
  lemma HeadsApart(a: Row, b: Row, t: Tab, u: Tab)
    requires Headless(a) && Headless(b) && WithHeads(a, t) == WithHeads(b, u)
    ensures a == b && t.firstFree % 0x1_0000_0000 == u.firstFree % 0x1_0000_0000
    ensures t.firstFull % 0x1_0000_0000 == u.firstFull % 0x1_0000_0000
  {
    var r, s := WithHeads(a, t), WithHeads(b, u);
    hide WithHeads, U32;
    assert a == a[..FIRST_FREE_AT] + a[FIRST_FREE_AT..] && b == b[..FIRST_FREE_AT] + b[FIRST_FREE_AT..];
    assert r[..FIRST_FREE_AT] == a[..FIRST_FREE_AT] && s[..FIRST_FREE_AT] == b[..FIRST_FREE_AT];
  }

  ghost predicate SamePages(v: View, w: View, t: nat) {
    forall b: bool :: var id := ListId(t, b); id in v.lists && id in w.lists && v.lists[id] == w.lists[id]
  }

  /** A cell that is the same. */
  ghost predicate CellIn(v: View, w: View, k: Key) {
    k in Contents(v) && k in Contents(w) && Contents(w)[k] == Contents(v)[k]
  }

  /** Where a table has the same pages, it has the same rows. */
  lemma SameCell(file: seq<byte>, x: Knowledge, y: Knowledge, k: Key)
    requires True(file, x) && True(file, y) && k in Contents(x.v) && SamePages(x.v, y.v, Contents(x.v)[k].table)
    ensures CellIn(x.v, y.v, k)
  {
    hide Image, Counts, Header, Inv, Mirrors, Placed, AllListed, AtHome, CatalogOk, WithHeads, Headless, TableId, SameShape;
    OnSamePage(x.v, y.v, k);
    SameShapes(file, x, y, k.page);
    CellOnDisk(file, x, k);
    TakenThere(file, y, k);
    CellOnDisk(file, y, k);
    if Contents(x.v)[k].table == TABLES {
      var a, b := Contents(x.v)[k].row, Contents(y.v)[k].row;
      HeadsApart(a, b, x.v.tabs[TableId(a)], y.v.tabs[TableId(b)]);
    }
  }

  /** The page of a row is on the same list. */
  lemma OnSamePage(v: View, w: View, k: Key)
    requires Inv(v, 0) && Inv(w, 0) && k in Contents(v) && SamePages(v, w, Contents(v)[k].table)
    ensures k.page in v.pages && k.page in w.pages && k.page in v.owner && k.page in w.owner && v.owner[k.page] == w.owner[k.page]
  {
    hide Chain, Occupancy, Records, Tiling, TabOk, PageOk;
    var id := v.owner[k.page].id;
    assert id == ListId(Contents(v)[k].table, id.full);
    assert k.page in v.lists[id] && k.page in w.lists[id];
  }

  /** A slot that is taken on disk has a row. */
  lemma TakenThere(file: seq<byte>, y: Knowledge, k: Key)
    requires True(file, y) && k.page in y.disk && k.row < |y.disk[k.page].slots| && y.disk[k.page].slots[k.row].Some?
    requires k.page in y.v.owner && y.v.owner[k.page].InList? && y.v.owner[k.page].id.tid != FREE_PAGES
    ensures k in Contents(y.v) && Contents(y.v)[k].table == y.v.owner[k.page].id.tid
  {
    hide Image, Counts, Header, Inv, Placed, AllListed, AtHome, CatalogOk, OnDisk;
    assert k.page in y.v.pages && k.row < |y.v.pages[k.page].slots|;
    TakenAlike(y.disk, y.v.pages, y.v.tabs, y.records, k.page);
  }

  // ---------------------------------------------------------------- tables

  ghost predicate TabsIn(v: View, w: View) {
    forall t :: t in v.tabs ==> t in w.tabs && v.tabs[t] == w.tabs[t]
  }

  ghost predicate ListsIn(v: View, w: View) {
    forall id :: id in v.lists ==> id in w.lists && v.lists[id] == w.lists[id]
  }

  ghost predicate CellsIn(v: View, w: View) {
    forall k :: k in Contents(v) ==> CellIn(v, w, k)
  }

  ghost predicate HeadsAlike(v: View, w: View, t: nat) {
    t in v.tabs && t in w.tabs && v.tabs[t].firstFree == w.tabs[t].firstFree && v.tabs[t].firstFull == w.tabs[t].firstFull
  }

  ghost predicate SamePlace(a: map<nat, Key>, b: map<nat, Key>, t: nat) {
    t in a && t in b && a[t] == b[t]
  }

  /** Heads are page numbers. */
  lemma HeadBelow(v: View, t: nat)
    requires Inv(v, 0) && t in v.tabs
    ensures v.tabs[t].firstFree < 0x1_0000_0000 && v.tabs[t].firstFull < 0x1_0000_0000
  {
    hide Occupancy, Records, TabOk, PageOk, Covered;
    var a, b := ListId(t, false), ListId(t, true);
    assert a in v.lists && b in v.lists;
    assert Chain(v.pages, v.lists[a], v.tabs[t].firstFree) && Chain(v.pages, v.lists[b], v.tabs[t].firstFull);
  }

  /** A table with its record at the same place has the same list heads and the same row. */
  lemma SameHeads(file: seq<byte>, x: Knowledge, y: Knowledge, t: nat)
    requires True(file, x) && True(file, y) && t in x.v.tabs && t in y.v.tabs && SamePlace(x.homes, y.homes, t)
    ensures HeadsAlike(x.v, y.v, t)
  {
    hide True, WithHeads, Headless, SameShape, Contents, U32, TableId;
    var k := x.homes[t];
    HomeOnDisk(file, x, t);
    HomeOnDisk(file, y, t);
    SameShapes(file, x, y, k.page);
    HeadsApart(Contents(x.v)[k].row, Contents(y.v)[k].row, x.v.tabs[t], y.v.tabs[t]);
  }

  /** The record of a table is a row of the table of tables, and has the list heads on disk. */
  ghost predicate RecordOnDisk(x: Knowledge, t: nat) {
    && t in x.v.tabs && t in x.homes && ListedAt(Contents(x.v), x.homes[t], t)
    && var k := x.homes[t]; var row := Contents(x.v)[k].row;
    && Headless(row) && k.page in x.v.pages && k.page in x.disk && k.row < |x.disk[k.page].slots|
    && x.disk[k.page].slots[k.row] == Some(WithHeads(row, x.v.tabs[t]))
  }

  lemma HomeOnDisk(file: seq<byte>, x: Knowledge, t: nat)
    requires True(file, x) && t in x.v.tabs
    ensures RecordOnDisk(x, t)
    ensures x.v.tabs[t].firstFree < 0x1_0000_0000 && x.v.tabs[t].firstFull < 0x1_0000_0000
  {
    hide Image, Counts, Header, Inv, Mirrors, Placed, AtHome, CatalogOk, WithHeads, Headless, TableId, Contents;
    var k := x.homes[t];
    assert ListedAt(Contents(x.v), k, t);
    CellOnDisk(file, x, k);
    CellPage(x.v, k);
    HeadBelow(x.v, t);
  }

  lemma CellPage(v: View, k: Key)
    requires k in Contents(v)
    ensures k.page in v.pages
  {
  }

  /** With the same heads, a table has the same lists and so the same rows. */
  lemma SameTable(file: seq<byte>, x: Knowledge, y: Knowledge, t: nat)
    requires True(file, x) && True(file, y) && HeadsAlike(x.v, y.v, t)
    ensures SamePages(x.v, y.v, t)
    ensures forall k :: k in Contents(x.v) && Contents(x.v)[k].table == t ==> CellIn(x.v, y.v, k)
  {
    hide True, Contents;
    forall b: bool ensures var id := ListId(t, b); id in x.v.lists && id in y.v.lists && x.v.lists[id] == y.v.lists[id] {
      SameList(file, x, y, ListId(t, b));
    }
    forall k | k in Contents(x.v) && Contents(x.v)[k].table == t ensures CellIn(x.v, y.v, k) {
      SameCell(file, x, y, k);
    }
  }

  /** The table of tables is the same. */
  lemma SameTables(file: seq<byte>, x: Knowledge, y: Knowledge)
    requires True(file, x) && True(file, y)
    ensures forall k :: k in Contents(x.v) && Contents(x.v)[k].table == TABLES ==> CellIn(x.v, y.v, k)
  {
    hide Image, Counts, Header, Inv, Mirrors, Placed, CatalogOk, Contents, AllListed;
    SameHeads(file, x, y, TABLES);
    SameTable(file, x, y, TABLES);
  }

  /** Every table is there, with its record at the same place, the same row size and the same extents. */
  lemma SameTab(file: seq<byte>, x: Knowledge, y: Knowledge, t: nat)
    requires True(file, x) && True(file, y) && t in x.v.tabs
    ensures t in y.v.tabs && x.v.tabs[t] == y.v.tabs[t]
  {
    hide Image, Counts, Header, Mirrors, Placed, AtHome, Contents, TableId, TableName, TableRowSize, Inv, Listed, Least;
    SameTables(file, x, y);
    var k := x.homes[t];
    assert ListedAt(Contents(x.v), k, t);
    assert ListedAt(Contents(y.v), k, t);
    assert ListedAt(Contents(y.v), y.homes[t], t);
    SameHeads(file, x, y, t);
    TabLeast(x.v, t);
    TabLeast(y.v, t);
    LeastOnce(x.v.tabs[t].rowSize, x.v.tabs[t].scale, y.v.tabs[t].scale);
  }

  lemma TabLeast(v: View, t: nat)
    requires Inv(v, 0) && t in v.tabs
    ensures Least(v.tabs[t].rowSize, v.tabs[t].scale)
  {
    hide Lists, Occupancy, Records, Tiling, PageOk, Mappable, Capacity, Least;
    assert TabOk(v.tabs[t]);
  }

  /** The counters are the same. */
  lemma SameCounts(h: seq<byte>, a: nat, b: nat, c: nat, d: nat)
    requires Counts(h, a, b) && Counts(h, c, d) && a < 0x1_0000 && c < 0x1_0000 && b < 0x1_0000_0000 && d < 0x1_0000_0000
    ensures a == c && b == d
  {
    hide U16, U32, EncodeU16, EncodeU32;
    var r, s := HeaderBytes(a, b), HeaderBytes(c, d);
    assert r[4..6] == EncodeU16(a) && s[4..6] == EncodeU16(c);
    assert r[8..] == EncodeU32(b) && s[8..] == EncodeU32(d);
  }

  // ---------------------------------------------------------------- what the file holds

  /** The list heads of a table, in the bytes of its record. */
  ghost predicate HeadsInFile(x: Knowledge, t: nat) {
    && RecordOnDisk(x, t)
    && var row := x.disk[x.homes[t].page].slots[x.homes[t].row].value;
    && |row| == TABLE_RECORD_SIZE && TableId(row) == t
    && U32(row[FIRST_FREE_AT..FIRST_FULL_AT]) == x.v.tabs[t].firstFree && U32(row[FIRST_FULL_AT..]) == x.v.tabs[t].firstFull
  }

  lemma HeadsThere(file: seq<byte>, x: Knowledge, t: nat)
    requires True(file, x) && t in x.v.tabs
    ensures HeadsInFile(x, t)
  {
    hide True, U16, U32, WithHeads, Headless, Contents;
    HomeOnDisk(file, x, t);
    var k := x.homes[t];
    var row, r := Contents(x.v)[k].row, x.disk[k.page].slots[k.row].value;
    assert row[32..34] == row[..FIRST_FREE_AT][32..34] && r[32..34] == r[..FIRST_FREE_AT][32..34];
  }

  /** The pages, the counters and the list heads of all tables, in the bytes. */
  ghost predicate InFile(db: Database)
    reads db, db.st
  {
    && Image(db.st.bytes, db.st.disk) && db.st.disk.Keys == db.st.pages.Keys
    && db.st.tablesNumber < 0x1_0000 && db.st.pagesNumber < 0x1_0000_0000
    && |db.st.bytes| >= SYS_PAGE_SIZE && db.st.bytes[..HEADER_SIZE] == HeaderBytes(db.st.tablesNumber, db.st.pagesNumber)
    && (forall t :: t in db.st.tabs ==> HeadsInFile(KnowledgeOf(db), t))
    && forall k :: k in db.Db() && db.Db()[k].table != TABLES ==> RowInFile(db.st.disk, k, db.Db()[k].row)
  }

  /** The row is on disk as the engine reads it. */
  ghost predicate RowInFile(disk: map<nat, Page>, k: Key, row: Row) {
    k.page in disk && k.row < |disk[k.page].slots| && disk[k.page].slots[k.row] == Some(row)
  }

  lemma ValidInFile(db: Database)
    requires db.Valid()
    ensures InFile(db)
  {
    hide Database.Valid, True, HeadsInFile, RowInFile, Image, HeaderBytes, Contents;
    var x := KnowledgeOf(db);
    ValidIsTrue(db);
    HeaderThere(db.st.bytes, x);
    forall t | t in db.st.tabs ensures HeadsInFile(x, t) {
      HeadsThere(db.st.bytes, x, t);
    }
    forall k | k in db.Db() && db.Db()[k].table != TABLES ensures RowInFile(db.st.disk, k, db.Db()[k].row) {
      RowThere(db.st.bytes, x, k);
    }
  }

  lemma RowThere(file: seq<byte>, x: Knowledge, k: Key)
    requires True(file, x) && k in Contents(x.v) && Contents(x.v)[k].table != TABLES
    ensures RowInFile(x.disk, k, Contents(x.v)[k].row)
  {
    hide True, Contents;
    CellOnDisk(file, x, k);
  }

  lemma HeaderThere(file: seq<byte>, x: Knowledge)
    requires True(file, x)
    ensures Image(file, x.disk) && x.disk.Keys == x.v.pages.Keys
    ensures x.tablesNumber < 0x1_0000 && x.v.pagesNumber < 0x1_0000_0000
    ensures |file| >= SYS_PAGE_SIZE && file[..HEADER_SIZE] == HeaderBytes(x.tablesNumber, x.v.pagesNumber)
  {
    hide Image, HeaderBytes, Placed, AtHome, AllListed, Contents, Geometry, Lists, Occupancy, Records, Listed, TableId,
         TableName, TableRowSize;
    assert file[..HEADER_SIZE] == Header(file)[..HEADER_SIZE];
  }

  // ---------------------------------------------------------------- the whole file

  /** Whatever is known of a file and true of its bytes is the same. */
  lemma SameKnowledge(file: seq<byte>, x: Knowledge, y: Knowledge)
    requires True(file, x) && True(file, y)
    ensures x.v.tabs == y.v.tabs && x.v.lists == y.v.lists && Contents(x.v) == Contents(y.v)
    ensures x.tablesNumber == y.tablesNumber && x.v.pagesNumber == y.v.pagesNumber
  {
    hide True, Contents;
    HalfSame(file, x, y);
    HalfSame(file, y, x);
    assert x.v.tabs == y.v.tabs;
    CountersSame(file, x, y);
  }

  lemma HalfSame(file: seq<byte>, x: Knowledge, y: Knowledge)
    requires True(file, x) && True(file, y)
    ensures TabsIn(x.v, y.v) && ListsIn(x.v, y.v) && CellsIn(x.v, y.v)
  {
    hide True, Contents;
    forall t | t in x.v.tabs ensures t in y.v.tabs && x.v.tabs[t] == y.v.tabs[t] {
      SameTab(file, x, y, t);
    }
    KnownOnly(file, x);
    forall id | id in x.v.lists ensures id in y.v.lists && x.v.lists[id] == y.v.lists[id] {
      ListSame(file, x, y, id);
    }
    forall k | k in Contents(x.v) ensures CellIn(x.v, y.v, k) {
      CellSame(file, x, y, k);
    }
  }

  lemma ListSame(file: seq<byte>, x: Knowledge, y: Knowledge, id: ListId)
    requires True(file, x) && True(file, y) && id.tid in x.v.tabs && id.tid in y.v.tabs && x.v.tabs[id.tid] == y.v.tabs[id.tid]
    ensures id in x.v.lists && id in y.v.lists && x.v.lists[id] == y.v.lists[id]
  {
    hide True;
    SameTable(file, x, y, id.tid);
    assert id == ListId(id.tid, id.full);
  }

  lemma CellSame(file: seq<byte>, x: Knowledge, y: Knowledge, k: Key)
    requires True(file, x) && True(file, y) && k in Contents(x.v)
    requires var t := Contents(x.v)[k].table; t in x.v.tabs && t in y.v.tabs && x.v.tabs[t] == y.v.tabs[t]
    ensures CellIn(x.v, y.v, k)
  {
    hide True, Contents;
    SameTable(file, x, y, Contents(x.v)[k].table);
  }

  /** Lists and rows are those of known tables. */
  lemma KnownOnly(file: seq<byte>, x: Knowledge)
    requires True(file, x)
    ensures forall id :: id in x.v.lists ==> id.tid in x.v.tabs
    ensures forall k :: k in Contents(x.v) ==> Contents(x.v)[k].table in x.v.tabs
  {
    hide Image, Counts, Header, Mirrors, Placed, AtHome, AllListed, CatalogOk, Contents, Lists, Occupancy, Records, Tiling;
    forall k | k in Contents(x.v) ensures Contents(x.v)[k].table in x.v.tabs {
      CellFits(x.v, k);
    }
  }

  lemma CountersSame(file: seq<byte>, x: Knowledge, y: Knowledge)
    requires True(file, x) && True(file, y)
    ensures x.tablesNumber == y.tablesNumber && x.v.pagesNumber == y.v.pagesNumber
  {
    hide Image, Counts, Header, Mirrors, Placed, AtHome, AllListed, Contents, Geometry, Lists, Occupancy, Records,
         Listed, TableId, TableName, TableRowSize;
    SameCounts(Header(file), x.tablesNumber, x.v.pagesNumber, y.tablesNumber, y.v.pagesNumber);
  }

  /**
   * Two databases in order with the same bytes have the same tables, list heads, counters and rows,
   * and clients with the same schemas see the same tuples: nothing is known beside the bytes.
   */
  lemma FileDetermines(a: Database, b: Database)
    requires a.Valid() && b.Valid() && a.st.bytes == b.st.bytes
    ensures a.st.tabs == b.st.tabs && a.st.lists == b.st.lists && a.Db() == b.Db()
    ensures a.st.tablesNumber == b.st.tablesNumber && a.st.pagesNumber == b.st.pagesNumber
    ensures a.schemes == b.schemes ==> a.Tuples() == b.Tuples()
  {
    hide Database.Valid, True, Contents, Client;
    ValidIsTrue(a);
    ValidIsTrue(b);
    SameKnowledge(a.st.bytes, KnowledgeOf(a), KnowledgeOf(b));
  }
}
