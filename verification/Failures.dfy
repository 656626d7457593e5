/** Inputs at which the program does not do what it is for. */
module Failures {
  import opened Common
  import opened PageLayout
  import opened StorageModel
  import opened StorageFrames
  import opened RowFormat
  import opened StringStore
  import opened CursorModel
  import opened StorageEngine
  import opened TableMap
  import opened Tables
  import opened Catalog
  import opened Consistency
  import opened Databases
  import opened PageCosts
  import opened ClientLoops
  import opened Nesting
  import opened Schemas
  import opened Clients

  // ---------------------------------------------------------------- joins that crash

  /** A table of one column, which the schema table has too. */
  function OneColumn(): (s: Fields)
    ensures |s| == 1 && s[0] == Field(TABLE_ID, UInt16, 0, 0)
  {
    [Field(TABLE_ID, UInt16, 0, 0)]
  }

  lemma OneColumnPages()
    ensures TablePages(OneColumn()) == 4
  {
    var f := OneColumn();
    assert |TABLE_ID| == 8 && NamePages(f, 1) == NamePages(f, 0) + StringPages(8) + 1;
    assert HeapRowSize(9) == 54;
  }

  /** A new file with a new table, and what cursors meet in it and in the schema table. */
  method NewTable() returns (db: Database, t: nat)
    ensures fresh(db) && fresh(db.st) && db.st.pagesNumber <= 15 && db.st.tablesNumber <= 7
    ensures db.Valid() && t in db.schemes && db.schemes[t] == OneColumn() && t != SCHEME_TABLE
    ensures SchemesBelow(db.Tuples(), db.st.tablesNumber)
    ensures SCHEME_TABLE in db.schemes && db.schemes[SCHEME_TABLE] == SchemeFields()
    ensures ListId(t, false) in db.st.lists && ListId(t, true) in db.st.lists && KeysMet(db, t, OneColumn(), AnyRow) == []
    ensures ListId(SCHEME_TABLE, false) in db.st.lists && ListId(SCHEME_TABLE, true) in db.st.lists
    ensures KeysMet(db, SCHEME_TABLE, SchemeFields(), AnyRow) != []
  {
    hide Database.Valid, Database.Tuples, Written, SchemeFields, SchemeAt, SchemesBelow, Definable, Reloaded, TablePages,
         Storable, Loadable, AllTyped, KeysMet, OneColumn, NoNul;
    db := CreateStorage();
    OneColumnFits();
    OneColumnPages();
    ghost var schemes, was := db.schemes, db.Tuples();
    KnownTables(db);
    var ok, loaded;
    ok, t, loaded := CreateTable(db, TABLE_ID, OneColumn());
    ghost var keys :| |keys| == |OneColumn()| && Written(was, db.Tuples(), keys, OneColumn(), t);
    OnlySchemeRow(db, schemes, was, keys, t);
  }

  /** Joined with the schema table, the new table makes the program read a null pointer. */
  method JoinFromEmpty() returns (res: JoinResult)
    ensures res == JoinCrashed
  {
    hide *;
    var db, t := NewTable();
    OneColumnFits();
    var pairs, rows;
    res, pairs, rows := JoinTables(db, t, OneColumn(), 0, SCHEME_TABLE, SchemeFields(), 4);
  }

  lemma OneColumnFits()
    ensures Definable(OneColumn()) && Loadable(OneColumn()) && Reloaded(OneColumn()) == OneColumn()
    ensures NoNul(TABLE_ID) && |TABLE_ID| < TABLE_NAME_MAX_SZ && TABLE_ID != HEAP_TABLES_NAME
    ensures 4 < |SchemeFields()| && Joinable(OneColumn()[0], SchemeFields()[4])
  {
    assert Offset(OneColumn(), 1) == 2;
    assert TABLE_ID[0] != HEAP_TABLES_NAME[0];
    ReloadedSame(OneColumn());
  }

  /** The new table has no tuple, and its column is a tuple of the schema table. */
  lemma OnlySchemeRow(db: Database, schemes: map<nat, Fields>, was: map<Key, Tuple>, keys: seq<Key>, t: nat)
    requires db.Valid() && t !in schemes && SCHEME_TABLE in schemes && db.schemes == schemes[t := OneColumn()]
    requires db.schemes[SCHEME_TABLE] == SchemeFields() && forall k :: k in was ==> was[k].table in schemes
    requires |keys| == 1 && Written(was, db.Tuples(), keys, OneColumn(), t)
    ensures ListId(t, false) in db.st.lists && ListId(t, true) in db.st.lists
    ensures ListId(SCHEME_TABLE, false) in db.st.lists && ListId(SCHEME_TABLE, true) in db.st.lists
    ensures KeysMet(db, t, OneColumn(), AnyRow) == [] && KeysMet(db, SCHEME_TABLE, SchemeFields(), AnyRow) != []
  {
    hide Database.Valid, Database.Tuples, SchemeFields, OneColumn, KeysMet, SchemeRow;
    HitsAreTuples(db, t, OneColumn(), AnyRow);
    HitsAreTuples(db, SCHEME_TABLE, SchemeFields(), AnyRow);
    NotEmpty(KeysMet(db, t, OneColumn(), AnyRow));
    assert Passes(db.Tuples()[keys[0]], SCHEME_TABLE, AnyRow);
  }

  lemma NotEmpty(s: seq<Key>)
    ensures s != [] ==> exists k :: k in s
  {
    if s != [] {
      assert s[0] in s;
    }
  }

  // ---------------------------------------------------------------- searches that stray

  /** Columns whose sizes add up to the largest row that has an extent. */
  function Large(): (s: Fields)
    ensures |s| == 410 && (forall i :: 0 <= i < 409 ==> s[i] == SchemeItem([0x61], Chars, 0, i, 0xFFFF))
    ensures s[409] == SchemeItem([0x61], Chars, 0, 409, 39319)
  {
    seq(410, i requires 0 <= i < 410 => SchemeItem([0x61], Chars, 0, i, if i < 409 then 0xFFFF else 39319))
  }

  /** Empty strings for all columns. */
  function Blank(): (s: seq<Value>)
    ensures |s| == 410 && forall i :: 0 <= i < 410 ==> s[i] == Text([])
  {
    seq(410, i => Text([]))
  }

  lemma {:induction false} LargeSums(i: nat)
    requires i <= 410
    ensures Offset(Large(), i) == if i == 410 then MAX_ROW_SIZE else 0xFFFF * i
    ensures NamePages(Large(), i) == 3 * i && StringColumns(Large(), i) == 0 && ValuesPages(Large(), Blank(), i) == 0
  {
    hide Large, Blank;
    if i > 0 {
      LargeSums(i - 1);
      assert HeapRowSize(2) == 54;
    }
  }

  lemma LargeFits()
    ensures Definable(Large()) && AllHold(Large(), Blank())
    ensures NoNul(ROW_SIZE) && |ROW_SIZE| < TABLE_NAME_MAX_SZ && ROW_SIZE != HEAP_TABLES_NAME
    ensures RowSize(Large()) == MAX_ROW_SIZE && TablePages(Large()) == 1231
    ensures StringCount(Large()) == 0 && TextPages(Large(), Blank()) == 0
  {
    hide Large, Blank, Offset, NamePages, StringColumns, ValuesPages, Holds;
    LargeSums(410);
    assert ROW_SIZE[0] != HEAP_TABLES_NAME[0];
    forall i | 0 <= i < 410 ensures Holds(Large()[i], Blank()[i]) {
      EmptyHolds(Large()[i]);
    }
  }

  lemma EmptyHolds(f: SchemeItem)
    requires f.ftype == Chars && f.maxSz >= 1
    ensures Holds(f, Text([]))
  {
  }

  /** A row of that size makes the file larger than 65535 pages. */
  lemma LargeFile(db: Database, t: nat, k: Key)
    requires db.Valid() && t in db.schemes && db.schemes[t] == Large() && k in db.Tuples() && db.Tuples()[k].table == t
    ensures db.st.pagesNumber >= 0x1_0000
  {
    hide Storage.OnBytes, Inv, NoMoving, Transits, Consistent, NoLeaks, Contents, CellAt, ReadRow, Large, RowSize, Capacity;
    ConsistentNames(db.Db(), db.st.tabs, db.st.tablesNumber, db.schemes, db.heaps, db.uses, None, 0);
    LargeFits();
    TableExtent(db.st.V(), t);
    assert k in db.Db() && db.Db()[k].table == t;
    PageInside(db.st.V(), t, k);
  }

  /** The extent of a page with a row ends inside the file. */
  lemma PageInside(v: View, t: nat, k: Key)
    requires Inv(v, 0) && t in v.tabs && k in Contents(v) && Contents(v)[k].table == t
    ensures 0 < k.page && k.page + v.tabs[t].scale <= v.pagesNumber
  {
    hide Lists, Occupancy, Records, PageOk, TabOk, Capacity;
    assert Fits(v.pages[k.page], v.owner[k.page], v.tabs);
  }

  /** No tuple of the table, and so no page with room. */
  ghost predicate Rowless(tuples: map<Key, Tuple>, u: nat) {
    forall k :: k in tuples ==> tuples[k].table != u
  }

  lemma RowlessMet(db: Database, u: nat)
    requires db.Valid() && u in db.schemes && db.schemes[u] == OneColumn()
    ensures ListId(u, false) in db.st.lists && ListId(u, true) in db.st.lists
    ensures Rowless(db.Tuples(), u) <==> KeysMet(db, u, OneColumn(), AnyRow) == []
  {
    hide Database.Valid, Database.Tuples, OneColumn, KeysMet;
    HitsAreTuples(db, u, OneColumn(), AnyRow);
    NotEmpty(KeysMet(db, u, OneColumn(), AnyRow));
    if k :| k in db.Tuples() && db.Tuples()[k].table == u {
      assert Passes(db.Tuples()[k], u, AnyRow);
    }
  }

  lemma StaysRowless(was: map<Key, Tuple>, now: map<Key, Tuple>, keys: seq<Key>, fields: Fields, t: nat, u: nat)
    requires Written(was, now, keys, fields, t) && Rowless(was, u) && u != SCHEME_TABLE
    ensures Rowless(now, u)
  {
    hide Written;
    WrittenAreSchemeRows(was, now, keys, fields, t);
  }

  /** A new file with a table of one column, and a table with rows of the largest size; neither has rows. */
  method TwoTables() returns (db: Database, u: nat, t: nat)
    ensures fresh(db) && fresh(db.st) && db.Valid() && db.Room(0, 0) && Rowless(db.Tuples(), u)
    ensures u in db.schemes && db.schemes[u] == OneColumn() && t in db.schemes && db.schemes[t] == Large() && t != u
  {
    hide Database.Valid, Database.Tuples, Written, SchemeFields, SchemesBelow, Definable, Reloaded, TablePages, AllHold,
         Loadable, KeysMet, OneColumn, Large, Blank, TextPages, StringCount, RowSize, NoNul, Rowless, AnyRow, SchemeAt,
         Storable, TypeSize, ValuesPages, NamePages, NameSizes, HasRecord, HeapSizes;
    db, u := NewTable();
    LargeFits();
    OneColumnFits();
    RowlessMet(db, u);
    ghost var was := db.Tuples();
    var ok, loaded;
    ok, t, loaded := CreateTable(db, ROW_SIZE, Large());
    ghost var keys :| |keys| == |Large()| && Written(was, db.Tuples(), keys, Large(), t);
    StaysRowless(was, db.Tuples(), keys, Large(), t, u);
  }

  /**
   * In a new file, a client creates two tables and inserts a row in the second. That makes the
   * file larger than 65535 pages, and the next search of the first table strays.
   */
  method SearchStrays() returns (res: IterResult)
    ensures res == Strayed
  {
    hide *;
    var db, u, t := TwoTables();
    LargeFits();
    ghost var was := db.Tuples();
    ghost var m;
    var ok, k;
    ok, k, m := db.Insert(t, Large(), Blank());
    OneMore(was, db.Tuples(), k, t, u, Stored(Blank()));
    LargeFile(db, t, k);
    RowlessMet(db, u);
    HeadHasRow(db, u, OneColumn());
    RoomMeans(db, u);
    var found, rows;
    res, found, rows := Select(db, u, OneColumn(), AnyRow);
  }

  lemma RoomMeans(db: Database, u: nat)
    ensures NoRoom(db.st, u) <==> u in db.st.tabs && db.st.tabs[u].firstFree == 0
  {
  }

  lemma OneMore(was: map<Key, Tuple>, now: map<Key, Tuple>, k: Key, t: nat, u: nat, values: seq<Option<Value>>)
    requires now == was[k := Tuple(t, values)] && Rowless(was, u) && t != u
    ensures k in now && now[k].table == t && Rowless(now, u)
  {
  }

  // ---------------------------------------------------------------- rows too wide for the search

  /** Columns of the greatest size. */
  function Wide(n: nat): (s: Fields)
    ensures |s| == n && forall i :: 0 <= i < n ==> s[i].maxSz == 0xFFFF && s[i].name != []
  {
    seq(n, i requires 0 <= i < n => SchemeItem([0x61], Chars, 0, i, 0xFFFF))
  }

  lemma {:induction false} WideSize(n: nat, i: nat)
    requires i <= n
    ensures Offset(Wide(n), i) == 0xFFFF * i
  {
    hide Wide;
    if i > 0 {
      WideSize(n, i - 1);
    }
  }

  /**
   * A table of 6554 columns of 65535 bytes: the search for the extent size ends at 49 pages, in which
   * not even one row fits.
   */
  lemma WideTable()
    ensures var fields := Wide(6554);
      && Declared(fields) && AllNamed(fields) && RowSize(fields) == 429_516_390
      && Stops(RowSize(fields), 49) && (forall s :: 1 <= s < 49 ==> !Stops(RowSize(fields), s))
      && Capacity(RowSize(fields), 49) == 0
  {
    hide Wide, Stops, Capacity, Offset;
    WideSize(6554, 6554);
    WrappedProduct();
  }

  // ---------------------------------------------------------------- table ids that come twice

  /** The counter of tables after `n` tables; its value is the id of the next one. */
  function TableCounter(n: nat): nat {
    if n == 0 then 0 else (TableCounter(n - 1) + 1) % 0x1_0000
  }

  lemma {:induction false} CounterWraps(n: nat)
    ensures TableCounter(n) == n % 0x1_0000
  {
    if n > 0 {
      CounterWraps(n - 1);
      NextModulo(n - 1);
    }
  }

  lemma NextModulo(n: nat)
    ensures (n % 0x1_0000 + 1) % 0x1_0000 == (n + 1) % 0x1_0000
  {
    var q := n / 0x1_0000;
    assert n == 0x1_0000 * q + n % 0x1_0000;
  }

  /**
   * The first `n` tables have different ids exactly if there are at most 65536. The next one gets
   * the id of the table of tables.
   */
  lemma IdsDiffer(n: nat)
    ensures (forall i, j :: 0 <= i < j < n ==> TableCounter(i) != TableCounter(j)) <==> n <= 0x1_0000
    ensures TableCounter(0x1_0000) == TABLES
  {
    forall i: nat ensures TableCounter(i) == i % 0x1_0000 {
      CounterWraps(i);
    }
    if n > 0x1_0000 {
      assert TableCounter(0) == TableCounter(0x1_0000);
    }
  }
}
