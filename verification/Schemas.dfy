/** Schemas of client tables, kept as rows of the schema table: writing, loading, and the creation of tables. */
module Schemas {
  import opened Common
  import opened Bytes
  import opened PageLayout
  import opened StorageModel
  import opened StorageFrames
  import opened CursorModel
  import opened StorageEngine
  import opened TableFrames
  import opened TableMap
  import opened RowFormat
  import opened StringStore
  import opened Tables
  import opened Catalog
  import opened Consistency
  import opened Databases
  import opened PageCosts
  import opened RowsIterators
  import opened ClientLoops

  /** The numbers of the types in the file. */
  function TypeCode(t: FieldType): byte {
    match t
    case Int32 => 1
    case Float => 2
    case Bool => 3
    case Str => 4
    case Byte => 5
    case Chars => 7
    case UInt32 => 8
    case UInt16 => 9
  }

  function TypeOf(code: byte): FieldType {
    if code == 1 then Int32
    else if code == 2 then Float
    else if code == 3 then Bool
    else if code == 4 then Str
    else if code == 5 then Byte
    else if code == 7 then Chars
    else if code == 8 then UInt32
    else UInt16
  }

  /** The row of the schema table for column `i` of table `id`. */
  function SchemeRow(f: SchemeItem, i: nat, id: nat): (r: seq<Value>)
    requires i < 0x1_0000 && id < 0x1_0000
    ensures |r| == 5
  {
    [Text(f.name), Raw([TypeCode(f.ftype)]), Raw([f.nullable]), Raw(EncodeU16(i)), Raw(EncodeU16(id))]
  }

  /** Names that the schema table can hold. */
  predicate Storable(fields: Fields) {
    |fields| < 0x1_0000 && forall i :: 0 <= i < |fields| ==> NoNul(fields[i].name) && |fields[i].name| + 1 <= MAX_HEAP_STRING
  }

  ghost function SchemeTuple(f: SchemeItem, i: nat, id: nat): Tuple
    requires i < 0x1_0000 && id < 0x1_0000
  {
    Tuple(SCHEME_TABLE, Stored(SchemeRow(f, i, id)))
  }

  /** The filter of `table_load_scheme`. */
  function OfTable(id: nat): Condition
    requires id < 0x1_0000
  {
    (row: seq<Value>) => |row| == 5 && row[4] == Raw(EncodeU16(id))
  }

  ghost predicate IsSchemeRow(x: Tuple, id: nat)
    requires id < 0x1_0000
  {
    Passes(x, SCHEME_TABLE, OfTable(id))
  }

  /** The rows of the schema table for table `id` are exactly those of these columns, at `keys`. */
  ghost predicate SchemeAt(tuples: map<Key, Tuple>, keys: seq<Key>, fields: Fields, id: nat) {
    && id < 0x1_0000 && |keys| == |fields| < 0x1_0000 && Distinct(keys)
    && (forall i :: 0 <= i < |keys| ==> keys[i] in tuples && tuples[keys[i]] == SchemeTuple(fields[i], i, id))
    && (forall k :: k in tuples && IsSchemeRow(tuples[k], id) ==> k in keys)
  }

  /** Every row of the schema table belongs to a table created so far. */
  ghost predicate SchemesBelow(tuples: map<Key, Tuple>, n: nat) {
    forall k :: k in tuples && tuples[k].table == SCHEME_TABLE ==> OfSome(tuples[k], n)
  }

  ghost predicate OfSome(x: Tuple, n: nat) {
    exists id: nat :: id < n && id < 0x1_0000 && IsSchemeRow(x, id)
  }

  lemma U16Same(a: nat, b: nat)
    requires a < 0x1_0000 && b < 0x1_0000 && EncodeU16(a) == EncodeU16(b)
    ensures a == b
  {
    assert U16(EncodeU16(a)) == a && U16(EncodeU16(b)) == b;
  }

  lemma OneTable(x: Tuple, a: nat, b: nat)
    requires a < 0x1_0000 && b < 0x1_0000 && IsSchemeRow(x, a) && IsSchemeRow(x, b)
    ensures a == b
  {
    hide EncodeU16, Plain;
    U16Same(a, b);
  }

  lemma WrittenIsSchemeRow(f: SchemeItem, i: nat, id: nat, other: nat)
    requires i < 0x1_0000 && id < 0x1_0000 && other < 0x1_0000
    ensures IsSchemeRow(SchemeTuple(f, i, id), other) <==> other == id
  {
    hide EncodeU16, Plain, Stored;
    PlainStored(SchemeRow(f, i, id));
    if IsSchemeRow(SchemeTuple(f, i, id), other) {
      U16Same(id, other);
    }
  }

  // ---------------------------------------------------------------- writing

  /** `now` is `was` with rows for the first columns, at `keys`. */
  ghost predicate Written(was: map<Key, Tuple>, now: map<Key, Tuple>, keys: seq<Key>, fields: Fields, id: nat) {
    && id < 0x1_0000 && |keys| <= |fields| < 0x1_0000 && Distinct(keys)
    && (forall i :: 0 <= i < |keys| ==> keys[i] !in was && keys[i] in now && now[keys[i]] == SchemeTuple(fields[i], i, id))
    && (forall k :: k in was ==> k in now && now[k] == was[k])
    && (forall k :: k in now ==> k in was || k in keys)
  }

  lemma WriteOne(was: map<Key, Tuple>, before: map<Key, Tuple>, keys: seq<Key>, fields: Fields, id: nat, k: Key)
    requires Written(was, before, keys, fields, id) && |keys| < |fields| && k !in before
    ensures Written(was, before[k := SchemeTuple(fields[|keys|], |keys|, id)], keys + [k], fields, id)
  {
    hide SchemeTuple;
  }

  /** The rows written are all rows for the table, if there were none before. */
  lemma AllWritten(was: map<Key, Tuple>, now: map<Key, Tuple>, keys: seq<Key>, fields: Fields, id: nat)
    requires Written(was, now, keys, fields, id) && |keys| == |fields|
    requires forall k :: k in was ==> !IsSchemeRow(was[k], id)
    ensures SchemeAt(now, keys, fields, id)
  {
    hide SchemeTuple, IsSchemeRow;
  }

  lemma WrittenBelow(was: map<Key, Tuple>, now: map<Key, Tuple>, keys: seq<Key>, fields: Fields, id: nat, n: nat, m: nat)
    requires Written(was, now, keys, fields, id) && SchemesBelow(was, n) && n <= m && id < m
    ensures SchemesBelow(now, m)
  {
    hide SchemeTuple, IsSchemeRow;
    forall k | k in now && now[k].table == SCHEME_TABLE ensures OfSome(now[k], m) {
      if k in was {
        assert OfSome(was[k], n);
      } else {
        var i :| 0 <= i < |keys| && keys[i] == k;
        WrittenIsSchemeRow(fields[i], i, id, id);
      }
    }
  }

  lemma SchemeRowHolds(f: SchemeItem, i: nat, id: nat)
    requires i < 0x1_0000 && id < 0x1_0000 && NoNul(f.name) && |f.name| + 1 <= MAX_HEAP_STRING
    ensures AllHold(SchemeFields(), SchemeRow(f, i, id))
  {
  }

  /** Written rows fit the schema table; a table that is new has no tuples yet. */
  lemma WrittenTyped(was: map<Key, Tuple>, now: map<Key, Tuple>, keys: seq<Key>, fields: Fields, id: nat, tables: map<nat, Fields>,
                     t: nat, loaded: Fields)
    requires Written(was, now, keys, fields, id) && |keys| == |fields| && Storable(fields) && AllTyped(was, tables)
    requires SCHEME_TABLE in tables && tables[SCHEME_TABLE] == SchemeFields()
    ensures AllTyped(now, tables) && (t !in tables ==> AllTyped(now, tables[t := loaded]))
  {
    hide SchemeRow, SchemeFields, AllHold, Plain, Stored;
    forall k | k in now ensures now[k].table in tables && AllHold(tables[now[k].table], Plain(now[k].values)) {
      if k !in was {
        var i :| 0 <= i < |keys| && keys[i] == k;
        SchemeRowHolds(fields[i], i, id);
        PlainStored(SchemeRow(fields[i], i, id));
      }
    }
  }

  /** By how many pages the schema of the first `i` columns makes the file grow at most. */
  function NamePages(fields: Fields, i: nat): nat
    requires i <= |fields|
  {
    if i == 0 then 0 else NamePages(fields, i - 1) + StringPages(|fields[i - 1].name|) + 1
  }

  function SchemePages(fields: Fields): nat {
    NamePages(fields, |fields|)
  }

  /** A new table: its own row, and those of its columns. */
  function TablePages(fields: Fields): nat {
    1 + SchemePages(fields)
  }

  /** The row sizes of the heap tables for the names of the first `i` columns. */
  function NameSizes(fields: Fields, i: nat): set<nat>
    requires i <= |fields|
  {
    if i == 0 then {} else NameSizes(fields, i - 1) + {HeapRowSize(|fields[i - 1].name| + 1)}
  }

  lemma {:induction false} NamesGrow(fields: Fields, i: nat, j: nat)
    requires i <= j <= |fields|
    ensures NamePages(fields, i) <= NamePages(fields, j)
    decreases j - i
  {
    if i < j {
      NamesGrow(fields, i, j - 1);
    }
  }

  lemma SchemeRowPages(f: SchemeItem, i: nat, id: nat)
    requires i < 0x1_0000 && id < 0x1_0000
    ensures InsertPages(SchemeFields(), SchemeRow(f, i, id)) == StringPages(|f.name|) + 1 && StringCount(SchemeFields()) == 1
  {
    hide HeapRowSize, EncodeU16;
    var s, r := SchemeFields(), SchemeRow(f, i, id);
    FixedSizes(1);
    assert StringColumns(s, 1) == 1 && ValuesPages(s, r, 1) == StringPages(|f.name|);
    assert StringColumns(s, 2) == 1 && ValuesPages(s, r, 2) == StringPages(|f.name|);
    assert StringColumns(s, 3) == 1 && ValuesPages(s, r, 3) == StringPages(|f.name|);
    assert StringColumns(s, 4) == 1 && ValuesPages(s, r, 4) == StringPages(|f.name|);
  }

  lemma SchemeRowSizes(f: SchemeItem, i: nat, id: nat)
    requires i < 0x1_0000 && id < 0x1_0000
    ensures var s := SchemeFields(); |SchemeRow(f, i, id)| == |s| && TextSizes(s, SchemeRow(f, i, id), |s|) == {HeapRowSize(|f.name| + 1)}
  {
    hide HeapRowSize, EncodeU16;
    var s, r, n := SchemeFields(), SchemeRow(f, i, id), {HeapRowSize(|f.name| + 1)};
    assert TextSizes(s, r, 1) == n;
    assert TextSizes(s, r, 2) == n;
    assert TextSizes(s, r, 3) == n;
    assert TextSizes(s, r, 4) == n;
  }

  /** The record of the table, with its name, the number of its columns and the sizes of its rows and extents. */
  ghost predicate HasRecord(db: Db, name: seq<byte>, t: nat, fields: Fields) {
    exists scale: nat :: Least(RowSize(fields), scale) && RecordedAs(db, name, t, |fields|, scale, RowSize(fields))
  }

  lemma RecordStays(a: Db, b: Db, name: seq<byte>, t: nat, fields: Fields)
    requires HasRecord(a, name, t, fields) && AllStay(a, b)
    ensures HasRecord(b, name, t, fields)
  {
    hide Least, RecordIs, RowSize;
    var scale: nat :| Least(RowSize(fields), scale) && RecordedAs(a, name, t, |fields|, scale, RowSize(fields));
    assert RecordedAs(b, name, t, |fields|, scale, RowSize(fields));
  }

  lemma StayThen(a: Db, b: Db, c: Db)
    requires AllStay(a, b) && AllStay(b, c)
    ensures AllStay(a, c)
  {
  }

  /** `write_table_scheme` */
  method WriteScheme(db: Database, fields: Fields, id: nat) returns (ok: bool, ghost keys: seq<Key>)
    requires db.Valid() && SCHEME_TABLE in db.schemes && db.schemes[SCHEME_TABLE] == SchemeFields()
    requires Storable(fields) && id < 0x1_0000
    modifies db`heaps, db`uses, db.st
    ensures !ok ==> db.AtLimit()
    ensures db.GrewBy(SchemePages(fields), |fields|)
    ensures ok ==> db.Valid() && db.st.tablesNumber >= old(db.st.tablesNumber)
    ensures ok ==> |keys| == |fields| && Written(old(db.Tuples()), db.Tuples(), keys, fields, id)
    ensures ok ==> db.HeapsAre(old(db.Sizes()) + NameSizes(fields, |fields|), old(db.Others())) && AllStay(old(db.Db()), db.Db())
  {
    hide Database.Valid, Database.Tuples, Written, AllHold, SchemeFields, SchemeRow, InsertPages, StringCount,
         TextPages, StringPages, HeapRowSize, TextSizes, HeapSizes, AllStay, Contents, Database.PlacedAfter;
    StayHere(db);
    ghost var was := db.Tuples();
    ok, keys := true, [];
    NoneWritten(was, fields, id);
    for i := 0 to |fields|
      invariant db.GrewBy(NamePages(fields, i), i)
      invariant db.Valid() && db.st.tablesNumber >= old(db.st.tablesNumber) && ok
      invariant |keys| == i && Written(was, db.Tuples(), keys, fields, id)
      invariant db.HeapsAre(old(db.Sizes()) + NameSizes(fields, i), old(db.Others())) && AllStay(old(db.Db()), db.Db())
    {
      SchemeRowHolds(fields[i], i, id);
      SchemeRowPages(fields[i], i, id);
      SchemeRowSizes(fields[i], i, id);
      NamesGrow(fields, i + 1, |fields|);
      ghost var before, m := db.Tuples(), db.Db();
      var k;
      ghost var stored;
      NewKeys(db);
      ok, k, stored := db.Insert(SCHEME_TABLE, SchemeFields(), SchemeRow(fields[i], i, id));
      if !ok {
        return;
      }
      StayThen(old(db.Db()), m, db.Db());
      WriteOne(was, before, keys, fields, id, k);
      keys := keys + [k];
    }
  }

  lemma StayHere(db: Database)
    ensures AllStay(db.Db(), db.Db())
  {
  }

  lemma NoneWritten(was: map<Key, Tuple>, fields: Fields, id: nat)
    requires |fields| < 0x1_0000 && id < 0x1_0000
    ensures Written(was, was, [], fields, id)
  {
  }

  /** A place without a row has no tuple. */
  lemma NewKeys(db: Database)
    ensures forall k :: k in db.Tuples() ==> k in db.Db()
  {
    hide ReadRow, CellAt;
  }

  // ---------------------------------------------------------------- loading

  /** What loading makes of the columns that were written. */
  function Reloaded(fields: Fields): (r: Fields)
    ensures |r| == |fields|
  {
    seq(|fields|, i requires 0 <= i < |fields| => Field(fields[i].name, fields[i].ftype, fields[i].nullable, i))
  }

  /** Columns have the sizes of their types, which CHARS columns have not. */
  predicate Loadable(fields: Fields) {
    forall i :: 0 <= i < |fields| ==> fields[i].order == i && fields[i].maxSz == TypeSize(fields[i].ftype)
  }

  /** Loading gives the columns back exactly when they stand in order and have the sizes of their types. */
  lemma ReloadedSame(fields: Fields)
    ensures Reloaded(fields) == fields <==> Loadable(fields)
  {
    if Reloaded(fields) == fields {
      forall i | 0 <= i < |fields| ensures fields[i].order == i && fields[i].maxSz == TypeSize(fields[i].ftype) {
        assert fields[i] == Reloaded(fields)[i];
      }
    } else {
      assert exists i :: 0 <= i < |fields| && fields[i] != Reloaded(fields)[i];
    }
  }

  /** A CHARS column comes back without its size. */
  lemma CharsLost(fields: Fields, i: nat)
    requires i < |fields| && fields[i].ftype == Chars && fields[i].maxSz > 0
    ensures Reloaded(fields)[i].maxSz == 0 && !Loadable(fields)
  {
    assert fields[i].maxSz != TypeSize(fields[i].ftype);
  }

  lemma SameLength(a: seq<Key>, b: seq<Key>)
    requires Distinct(a) && Distinct(b) && forall k :: k in a <==> k in b
    ensures |a| == |b|
  {
    DistinctSize(a);
    DistinctSize(b);
    assert Members(a) == Members(b);
  }

  /** `insert_scheme_field`: any slot within the capacity can be filled. */
  method InsertSchemeField(slots: seq<SchemeItem>, name: seq<byte>, ftype: FieldType, nullable: byte, index: nat) returns (r: seq<SchemeItem>)
    requires index < |slots|
    ensures r == slots[index := Field(name, ftype, nullable, index)]
  {
    if index >= |slots| {
      assert false;
    }
    r := slots[index := Field(name, ftype, nullable, index)];
  }

  /** The columns whose rows have been met are in their slots. */
  ghost predicate Filling(slots: seq<SchemeItem>, keys: seq<Key>, done: seq<Key>, fields: Fields) {
    && |slots| == |fields| == |keys|
    && forall i :: 0 <= i < |keys| && keys[i] in done ==> slots[i] == Reloaded(fields)[i]
  }

  /** The row of column `j` fills slot `j`, whatever order the rows come in. */
  lemma FillOne(slots: seq<SchemeItem>, keys: seq<Key>, done: seq<Key>, fields: Fields, j: nat)
    requires Filling(slots, keys, done, fields) && j < |keys| && Distinct(keys)
    ensures Filling(slots[j := Field(fields[j].name, fields[j].ftype, fields[j].nullable, j)], keys, done + [keys[j]], fields)
  {
  }

  /** What a row of the schema table says. */
  lemma SchemeRowReads(f: SchemeItem, i: nat, id: nat)
    requires i < 0x1_0000 && id < 0x1_0000
    ensures var r := SchemeRow(f, i, id);
      && r[0] == Text(f.name) && r[1].Raw? && |r[1].bytes| == 1 && TypeOf(r[1].bytes[0]) == f.ftype
      && r[2] == Raw([f.nullable]) && r[3].Raw? && |r[3].bytes| == 2 && U16(r[3].bytes) == i
  {
    hide U16;
  }

  /** The position of a key among the written ones. */
  lemma WhichColumn(tuples: map<Key, Tuple>, keys: seq<Key>, fields: Fields, id: nat, k: Key, values: seq<Value>) returns (j: nat)
    requires SchemeAt(tuples, keys, fields, id) && k in tuples && IsSchemeRow(tuples[k], id)
    requires tuples[k] == Tuple(SCHEME_TABLE, Stored(values))
    ensures j < |keys| && keys[j] == k && values == SchemeRow(fields[j], j, id)
  {
    hide Stored, IsSchemeRow, SchemeRow;
    j :| 0 <= j < |keys| && keys[j] == k;
    StoredSame(values, SchemeRow(fields[j], j, id));
  }

  /** The cursor meets exactly the written rows. */
  lemma MetAreWritten(db: Database, keys: seq<Key>, fields: Fields, id: nat)
    requires db.Valid() && SCHEME_TABLE in db.schemes && db.schemes[SCHEME_TABLE] == SchemeFields()
    requires SchemeAt(db.Tuples(), keys, fields, id)
    ensures ListId(SCHEME_TABLE, false) in db.st.lists && ListId(SCHEME_TABLE, true) in db.st.lists
    ensures var met := KeysMet(db, SCHEME_TABLE, SchemeFields(), OfTable(id));
      && |met| == |fields| && (forall k: Key :: k in met ==> k in db.Tuples() && IsSchemeRow(db.Tuples()[k], id))
      && (forall i :: 0 <= i < |keys| ==> keys[i] in met)
  {
    hide Database.Valid, Database.Tuples, KeysMet, OfTable, SchemeFields, SchemeTuple, Passes;
    HitsAreTuples(db, SCHEME_TABLE, SchemeFields(), OfTable(id));
    var met := KeysMet(db, SCHEME_TABLE, SchemeFields(), OfTable(id));
    forall i | 0 <= i < |keys| ensures keys[i] in met {
      WrittenIsSchemeRow(fields[i], i, id, id);
    }
    SameLength(met, keys);
  }

  /** One row of the schema table into its slot. */
  method LoadField(iter: RowsIterator, slots: seq<SchemeItem>, id: nat, ghost keys: seq<Key>, ghost done: seq<Key>, ghost fields: Fields)
    returns (r: seq<SchemeItem>)
    requires iter.HasCurrent() && id < 0x1_0000 && SchemeAt(iter.db.Tuples(), keys, fields, id)
    requires iter.Current() in iter.db.Tuples() && IsSchemeRow(iter.db.Tuples()[iter.Current()], id)
    requires Filling(slots, keys, done, fields)
    ensures Filling(r, keys, done + [iter.Current()], fields) && |r| == |slots|
  {
    hide Storage.OnBytes, Database.Valid, Database.Tuples, OfTable, SchemeAt, IsSchemeRow, Filling, SchemeRow,
         Stored, Inv, NoMoving, Consistent, NoLeaks, Reloaded, RowsIterator.CurrentValues;
    ValuesRead(iter);
    var row := iter.CurrentValues();
    SchemeTable(iter.db.Tuples()[iter.Current()], id);
    ghost var j := WhichColumn(iter.db.Tuples(), keys, fields, id, iter.Current(), row);
    SlotOf(iter.db.Tuples(), slots, keys, done, fields, id);
    SchemeRowReads(fields[j], j, id);
    r := InsertSchemeField(slots, row[0].chars, TypeOf(row[1].bytes[0]), row[2].bytes[0], U16(row[3].bytes));
    FillOne(slots, keys, done, fields, j);
  }

  lemma SchemeTable(x: Tuple, id: nat)
    requires id < 0x1_0000 && IsSchemeRow(x, id)
    ensures x.table == SCHEME_TABLE
  {
  }

  lemma SlotOf(tuples: map<Key, Tuple>, slots: seq<SchemeItem>, keys: seq<Key>, done: seq<Key>, fields: Fields, id: nat)
    requires SchemeAt(tuples, keys, fields, id) && Filling(slots, keys, done, fields)
    ensures |slots| == |fields| == |keys| < 0x1_0000 && Distinct(keys)
  {
  }

  /** The next row of the table in the schema table is there, and fills its slot. */
  method LoadNext(iter: RowsIterator, slots: seq<SchemeItem>, id: nat, ghost keys: seq<Key>, ghost done: seq<Key>, ghost met: seq<Key>,
                  ghost fields: Fields) returns (res: IterResult, r: seq<SchemeItem>)
    requires iter.Valid() && id < 0x1_0000 && SchemeAt(iter.db.Tuples(), keys, fields, id) && Filling(slots, keys, done, fields)
    requires done + iter.Ahead() == met && |done| < |met|
    requires forall k: Key :: k in met ==> k in iter.db.Tuples() && IsSchemeRow(iter.db.Tuples()[k], id)
    modifies iter
    ensures res == Strayed ==> iter.db.st.pagesNumber >= 0x1_0000
    ensures res != Strayed ==> res == RowFound && iter.HasCurrent() && done + [iter.Current()] + iter.Ahead() == met
    ensures res != Strayed ==> Filling(r, keys, done + [iter.Current()], fields)
  {
    hide Storage.OnBytes, Database.Valid, Database.Tuples, SchemeAt, IsSchemeRow, Filling, Inv, NoMoving, Consistent, NoLeaks,
         RowsIterator.Ahead, RowsIterator.Valid;
    r := slots;
    ghost var ahead := iter.Ahead();
    Shift(met, done, ahead);
    res := iter.Next();
    if res == Strayed {
      return;
    }
    if res == SearchEnd {
      assert false;
    }
    assert ahead[0] == iter.Current();
    r := LoadField(iter, slots, id, keys, done, fields);
    assert iter.Ahead() == ahead[1..];
  }

  /**
   * `table_load_scheme`: as many rows as the record of the table says are read, in the order in
   * which the cursor yields them, and every column ends up in its place.
   */
  method LoadScheme(db: Database, id: nat, ghost keys: seq<Key>, ghost fields: Fields)
    returns (res: IterResult, slots: seq<SchemeItem>)
    requires db.Valid() && SCHEME_TABLE in db.schemes && db.schemes[SCHEME_TABLE] == SchemeFields()
    requires id < 0x1_0000 && SchemeAt(db.Tuples(), keys, fields, id) && id in db.schemes && |db.schemes[id]| == |fields|
    ensures res == Strayed ==> db.st.pagesNumber >= 0x1_0000
    ensures res != Strayed ==> res == RowFound && slots == Reloaded(fields)
  {
    hide Database.Valid, Database.Tuples, OfTable, SchemeFields, IsSchemeRow, Filling, Reloaded, SchemeAt,
         RowsIterator.Ahead, RowsIterator.Valid, Passing, TableHits;
    MetAreWritten(db, keys, fields, id);
    ghost var met := KeysMet(db, SCHEME_TABLE, SchemeFields(), OfTable(id));
    var n := db.FieldsNumber(id);
    slots := seq(n, _ => Field([], Int32, 0, 0));
    ghost var done: seq<Key> := [];
    NothingFilled(db.Tuples(), slots, keys, fields, id);
    var iter := new RowsIterator(db, SCHEME_TABLE, SchemeFields(), OfTable(id));
    var i := 0;
    while i < n
      invariant i <= n && |done| == i && Filling(slots, keys, done, fields)
      invariant iter.Valid() && iter.db == db && fresh(iter) && done + iter.Ahead() == met
    {
      res, slots := LoadNext(iter, slots, id, keys, done, met, fields);
      if res == Strayed {
        return;
      }
      done := done + [iter.Current()];
      i := i + 1;
    }
    res := RowFound;
    AllFilled(slots, keys, done, met, fields);
  }

  lemma Shift(met: seq<Key>, done: seq<Key>, ahead: seq<Key>)
    requires done + ahead == met
    ensures ahead == [] ==> |done| == |met|
    ensures ahead != [] ==> ahead[0] in met && done + [ahead[0]] + ahead[1..] == met
  {
    if ahead != [] {
      assert met[|done|] == ahead[0];
    }
  }

  lemma NothingFilled(tuples: map<Key, Tuple>, slots: seq<SchemeItem>, keys: seq<Key>, fields: Fields, id: nat)
    requires SchemeAt(tuples, keys, fields, id) && |slots| == |fields|
    ensures Filling(slots, keys, [], fields)
  {
  }

  lemma AllFilled(slots: seq<SchemeItem>, keys: seq<Key>, done: seq<Key>, met: seq<Key>, fields: Fields)
    requires Filling(slots, keys, done, fields) && done <= met && |done| == |met|
    requires forall i :: 0 <= i < |keys| ==> keys[i] in met
    ensures slots == Reloaded(fields)
  {
    assert done == met;
  }

  // ---------------------------------------------------------------- creating tables

  /** The client tables grow by one that has no rows. */
  lemma SchemeAdded(db: Db, tabs: map<nat, Tab>, n: nat, schemes: map<nat, Fields>, heaps: set<nat>, uses: map<Key, Use>, t: nat, fields: Fields)
    requires Consistent(db, tabs, n, schemes, heaps, uses, None, 0) && NoLeaks(db, schemes, heaps, uses, None, 0)
    requires t in tabs && t > FREE_PAGES && t !in heaps && t !in schemes && tabs[t].rowSize == RowSize(fields) && SchemeOk(fields)
    requires (forall k :: k in db ==> db[k].table != t) && exists name :: HasRecord(db, name, t, fields)
    ensures Consistent(db, tabs, n, schemes[t := fields], heaps, uses, None, 0)
    ensures NoLeaks(db, schemes[t := fields], heaps, uses, None, 0)
    ensures Client(db, schemes[t := fields]) == Client(db, schemes)
  {
    hide CatalogOk, CountsOk, StringsOk, SchemeOk, RowSize, ReadRow, InUse, HasRecord;
    CountsOfNew(db, tabs, n, schemes, heaps, t, fields);
    StringsAdded(db, schemes, heaps, uses, t, fields);
    forall l | l in db && db[l].table in heaps ensures InUse(db, schemes[t := fields], uses, l, None, 0) {
      UseAdded(db, schemes, uses, l, t, fields);
    }
  }

  lemma CountsOfNew(db: Db, tabs: map<nat, Tab>, n: nat, schemes: map<nat, Fields>, heaps: set<nat>, t: nat, fields: Fields)
    requires CatalogOk(db, tabs, heaps, n) && CountsOk(db, schemes) && exists name :: HasRecord(db, name, t, fields)
    ensures CountsOk(db, schemes[t := fields])
  {
    hide TableId, TableName, TableRowSize, TableScale, TableFieldsNumber, Least, RowSize;
    var name :| HasRecord(db, name, t, fields);
    var scale: nat :| Least(RowSize(fields), scale) && RecordedAs(db, name, t, |fields|, scale, RowSize(fields));
    var k :| k in db && db[k].table == TABLES && RecordIs(db[k].row, name, t, |fields|, scale, RowSize(fields));
    assert ListedAt(db, k, t);
    forall l | l in db && db[l].table == TABLES && TableId(db[l].row) == t ensures l == k {
      assert ListedAt(db, l, t);
    }
  }

  lemma StringsAdded(db: Db, schemes: map<nat, Fields>, heaps: set<nat>, uses: map<Key, Use>, t: nat, fields: Fields)
    requires StringsOk(db, schemes, heaps, uses, None, 0) && t !in heaps && t !in schemes && SchemeOk(fields)
    requires forall k :: k in db ==> db[k].table != t
    ensures StringsOk(db, schemes[t := fields], heaps, uses, None, 0)
  {
    hide SchemeOk, RefOk;
    var more := schemes[t := fields];
    forall k, i | k in db && db[k].table in more && 0 <= i < |more[db[k].table]| ensures ColumnOk(db, more, heaps, uses, k, i) {
      assert ColumnOk(db, schemes, heaps, uses, k, i);
    }
  }

  lemma UseAdded(db: Db, schemes: map<nat, Fields>, uses: map<Key, Use>, l: Key, t: nat, fields: Fields)
    requires InUse(db, schemes, uses, l, None, 0) && t !in schemes
    ensures InUse(db, schemes[t := fields], uses, l, None, 0)
  {
  }

  /** Writing a table's own row changes no tuple of a client. */
  lemma SameTuples(a: Db, ha: set<nat>, b: Db, hb: set<nat>, tabs: map<nat, Tab>, n: nat, schemes: map<nat, Fields>, uses: map<Key, Use>)
    requires Consistent(a, tabs, n, schemes, ha, uses, None, 0) && NoLeaks(a, schemes, ha, uses, None, 0)
    requires Growth(a, ha, b, hb, schemes, {})
    ensures Client(b, schemes) == Client(a, schemes) && NoLeaks(b, schemes, hb, uses, None, 0)
  {
    hide CatalogOk, SchemesOk, ReadRow, Client;
    ClientGrown(a, b, schemes, ha, uses);
    forall l | l in b && b[l].table in hb ensures InUse(b, schemes, uses, l, None, 0) {
      assert InUse(a, schemes, uses, l, None, 0);
    }
  }

  /** A table definition of a client: columns in order, string columns of 8 bytes, storable names. */
  predicate Definable(fields: Fields) {
    && Storable(fields) && AllNamed(fields) && Declared(fields) && SchemeOk(fields) && 1 <= RowSize(fields) <= MAX_ROW_SIZE
  }

  /** `write_table` for a client table that has no rows yet. */
  method AddTable(db: Database, name: seq<byte>, fields: Fields) returns (ok: bool, t: nat)
    requires db.Valid() && Definable(fields) && NoNul(name) && |name| < TABLE_NAME_MAX_SZ && name != HEAP_TABLES_NAME
    modifies db`heaps, db`schemes, db.st
    ensures !ok ==> db.AtLimit()
    ensures db.GrewBy(1, 1)
    ensures ok ==> db.Valid() && t == old(db.st.tablesNumber) && db.st.tablesNumber == t + 1 && t < 0x1_0000
    ensures ok ==> db.schemes == old(db.schemes)[t := fields] && t !in old(db.schemes) && db.Tuples() == old(db.Tuples())
    ensures ok ==> HasRecord(db.Db(), name, t, fields) && db.HeapsAre(old(db.Sizes()), old(db.Others()) + 1)
  {
    hide Storage.OnBytes, AllListed, AtHome, Inv, NoMoving, Transits, Consistent, NoLeaks, Client, Growth, AllKept, Definable,
         RowSize, Least, SchemeOk, Contents, RecordIs, HeapSizes;
    ConsistentNames(db.Db(), db.st.tabs, db.st.tablesNumber, db.schemes, db.heaps, db.uses, None, 0);
    ghost var a, ha, tabs, n := db.Db(), db.heaps, db.st.tabs, db.st.tablesNumber;
    DefinableSize(fields);
    var ended, rowSize, scale := InitTable(fields);
    ok, t := db.WriteTable(name, |fields|, rowSize, scale, None, 0);
    if ok {
      SameTuples(a, ha, db.Db(), db.heaps, tabs, n, db.schemes, db.uses);
      assert RecordedAs(db.Db(), name, t, |fields|, scale, RowSize(fields));
      assert HasRecord(db.Db(), name, t, fields);
      SchemeAdded(db.Db(), db.st.tabs, db.st.tablesNumber, db.schemes, db.heaps, db.uses, t, fields);
      db.schemes := db.schemes[t := fields];
    }
  }

  lemma DefinableSize(fields: Fields)
    requires Definable(fields)
    ensures 1 <= RowSize(fields) <= MAX_ROW_SIZE && AllNamed(fields) && |fields| < 0x1_0000 && Declared(fields)
    ensures SchemeOk(fields)
  {
  }

  /**
   * `create_table`: afterwards the table is there, empty, and its schema is loaded. It loads as it
   * was given exactly when the columns have the sizes of their types.
   */
  method CreateTable(db: Database, name: seq<byte>, fields: Fields) returns (ok: bool, t: nat, loaded: Fields)
    requires db.Valid() && SCHEME_TABLE in db.schemes && db.schemes[SCHEME_TABLE] == SchemeFields()
    requires SchemesBelow(db.Tuples(), db.st.tablesNumber)
    requires Definable(fields) && NoNul(name) && |name| < TABLE_NAME_MAX_SZ && name != HEAP_TABLES_NAME
    modifies db`heaps, db`schemes, db`uses, db.st
    ensures !ok ==> db.AtLimit()
    ensures db.GrewBy(TablePages(fields), 1 + |fields|)
    ensures old(db.Room(TablePages(fields), 1 + |fields|)) ==> ok
    ensures ok ==> loaded == Reloaded(fields) && (loaded == fields <==> Loadable(fields))
    ensures ok ==> db.Valid() && t !in old(db.schemes) && db.schemes == old(db.schemes)[t := fields]
    ensures ok ==> SchemesBelow(db.Tuples(), db.st.tablesNumber) && HasRecord(db.Db(), name, t, fields)
    ensures ok ==> db.HeapsAre(old(db.Sizes()) + NameSizes(fields, |fields|), old(db.Others()) + 1)
    ensures ok ==> exists keys :: |keys| == |fields| && Written(old(db.Tuples()), db.Tuples(), keys, fields, t)
    ensures ok ==> exists keys :: SchemeAt(db.Tuples(), keys, fields, t)
  {
    hide Database.Valid, Database.Tuples, Written, SchemeFields, SchemeAt, SchemesBelow, Definable, Reloaded, Storable,
         Loadable, HasRecord, AllStay, Contents, HeapSizes, NameSizes;
    loaded := [];
    DefinableStores(fields);
    ReloadedSame(fields);
    ghost var was, n := db.Tuples(), db.st.tablesNumber;
    OldTable(db);
    ok, t := AddTable(db, name, fields);
    if ok {
      ghost var keys, m;
      m := db.Db();
      ok, keys := WriteScheme(db, fields, t);
      if ok {
        RecordStays(m, db.Db(), name, t, fields);
        NewId(was, n);
        AllWritten(was, db.Tuples(), keys, fields, t);
        WrittenBelow(was, db.Tuples(), keys, fields, t, n, db.st.tablesNumber);
        var res;
        res, loaded := LoadScheme(db, t, keys, fields);
        ok := res != Strayed;
      }
    }
  }

  lemma DefinableStores(fields: Fields)
    requires Definable(fields)
    ensures Storable(fields)
  {
  }

  /** The schema table is not the table that comes next. */
  lemma OldTable(db: Database)
    requires db.Valid()
    ensures db.st.tablesNumber > FREE_PAGES && db.st.tablesNumber !in db.schemes
  {
    hide Storage.OnBytes, AllListed, Inv, NoMoving, Transits, NoLeaks, Contents, Consistent;
    ConsistentNames(db.Db(), db.st.tabs, db.st.tablesNumber, db.schemes, db.heaps, db.uses, None, 0);
  }

  /** No row of the schema table is for a table that is not there yet. */
  lemma NewId(tuples: map<Key, Tuple>, n: nat)
    requires SchemesBelow(tuples, n) && n < 0x1_0000
    ensures forall k :: k in tuples ==> !IsSchemeRow(tuples[k], n)
  {
    hide IsSchemeRow;
    forall k | k in tuples ensures !IsSchemeRow(tuples[k], n) {
      if IsSchemeRow(tuples[k], n) {
        SchemeTable(tuples[k], n);
        assert OfSome(tuples[k], n);
        var id: nat :| id < n && id < 0x1_0000 && IsSchemeRow(tuples[k], id);
        OneTable(tuples[k], id, n);
        assert false;
      }
    }
  }

  /** `create_new_storage`: the bootstrap, with the schema of the free-page table. It always completes. */
  method CreateStorage() returns (db: Database)
    ensures fresh(db) && fresh(db.st) && db.st.pagesNumber <= 11 && db.st.tablesNumber == 4 && db.Sizes() == {54}
    ensures db.Valid() && db.schemes == map[SCHEME_TABLE := SchemeFields()] && SchemesBelow(db.Tuples(), db.st.tablesNumber)
    ensures AllTyped(db.Tuples(), db.schemes)
    ensures exists keys :: SchemeAt(db.Tuples(), keys, FreePagesFields(), FREE_PAGES)
  {
    hide Database.Valid, Database.Tuples, Written, SchemeFields, SchemeAt, AllTyped, SchemePages, FreePagesFields, NameSizes,
         HeapSizes, AllStay;
    db := new Database();
    FreePagesStore();
    NoSizes(db);
    FreePagesSizes();
    ghost var was := db.Tuples();
    var ok;
    ghost var keys;
    ok, keys := WriteScheme(db, FreePagesFields(), FREE_PAGES);
    AllWritten(was, db.Tuples(), keys, FreePagesFields(), FREE_PAGES);
    WrittenBelow(was, db.Tuples(), keys, FreePagesFields(), FREE_PAGES, 3, db.st.tablesNumber);
    FirstTyped(was, db.Tuples(), keys);
    OneHeap(db);
  }

  lemma NoSizes(db: Database)
    requires db.heaps == {}
    ensures db.Sizes() == {}
  {
  }

  /** Both names of the columns of the free-page table are in one heap table. */
  lemma OneHeap(db: Database)
    requires db.Valid() && db.Sizes() == NameSizes(FreePagesFields(), |FreePagesFields()|)
    ensures |db.heaps| == 1
  {
    hide Storage.OnBytes, AllListed, AtHome, Inv, NoMoving, Transits, NoLeaks, Contents, HeapSizes, CatalogOk, CountsOk, StringsOk;
    FreePagesSizes();
    SizesCount(db.heaps, db.st.tabs);
  }

  lemma FreePagesSizes()
    ensures NameSizes(FreePagesFields(), |FreePagesFields()|) == {54}
  {
    var f := FreePagesFields();
    assert NameSizes(f, 1) == {54} && NameSizes(f, 2) == {54};
  }

  lemma FirstTyped(was: map<Key, Tuple>, now: map<Key, Tuple>, keys: seq<Key>)
    requires was == map[] && Written(was, now, keys, FreePagesFields(), FREE_PAGES) && |keys| == |FreePagesFields()|
    ensures AllTyped(now, map[SCHEME_TABLE := SchemeFields()])
  {
    hide Written, SchemeFields, FreePagesFields, Storable, AllHold;
    FreePagesStore();
    var tables := map[SCHEME_TABLE := SchemeFields()];
    WrittenTyped(was, now, keys, FreePagesFields(), FREE_PAGES, tables, FREE_PAGES, []);
  }

  lemma FreePagesStore()
    ensures Storable(FreePagesFields()) && SchemePages(FreePagesFields()) == 6
  {
    var f := FreePagesFields();
    assert NamePages(f, 1) == 3 && NamePages(f, 2) == 6;
  }
}
