/**
 * Rows whose string columns point into heap tables, on the database as a finite map:
 * what keeps every string readable, and every heap row referred to at most once.
 */
module StringStore {
  import opened Common
  import opened Bytes
  import opened PageRows
  import opened CursorModel
  import opened TableMap
  import opened RowFormat

  type Db = map<Key, Cell>

  /** Which string column of which row refers to a heap row. */
  datatype Use = Use(key: Key, column: nat)

  /** A column value: a string, or bytes. */
  datatype Value = Text(chars: seq<byte>) | Raw(bytes: seq<byte>)

  /** The heap row that a string column points to. */
  function RefOf(piece: seq<byte>): Key
    requires |piece| == 8
  {
    Key(U32(piece[..4]), U32(piece[4..]))
  }

  function EncodeRef(k: Key): (b: seq<byte>)
    requires k.page < 0x1_0000_0000 && k.row < 0x1_0000_0000
    ensures |b| == 8 && RefOf(b) == k
  {
    var b := EncodeU32(k.page) + EncodeU32(k.row);
    assert b[..4] == EncodeU32(k.page) && b[4..] == EncodeU32(k.row);
    b
  }

  /** A value that its column can hold. */
  predicate Holds(f: SchemeItem, x: Value) {
    match f.ftype
    case Str => f.maxSz == 8 && x.Text? && NoNul(x.chars) && |x.chars| + 1 <= MAX_HEAP_STRING
    case Chars => x.Text? && NoNul(x.chars) && |x.chars| + 1 <= f.maxSz
    case _ => x.Raw? && |x.bytes| == f.maxSz
  }

  predicate AllHold(fields: Fields, values: seq<Value>) {
    |values| == |fields| && forall i :: 0 <= i < |fields| ==> Holds(fields[i], values[i])
  }

  /** Columns stand in their order, and string columns are references. */
  predicate SchemeOk(fields: Fields) {
    forall i :: 0 <= i < |fields| ==> fields[i].order == i && (fields[i].ftype == Str ==> fields[i].maxSz == 8)
  }

  /** What a column reads as. */
  ghost function ReadColumn(db: Db, f: SchemeItem, piece: seq<byte>): Option<Value> {
    if f.ftype == Str then
      if |piece| == 8 && RefOf(piece) in db then Some(Text(HeapText(db[RefOf(piece)].row))) else None
    else if f.ftype == Chars then Some(Text(CString(piece)))
    else Some(Raw(piece))
  }

  /** What a row reads as, column by column. */
  ghost function ReadRow(db: Db, fields: Fields, row: Row): (s: seq<Option<Value>>)
    ensures |s| == |fields|
  {
    seq(|fields|, i requires 0 <= i < |fields| =>
      if End(fields, i) <= |row| then ReadColumn(db, fields[i], Piece(fields, row, i)) else None)
  }

  // ---------------------------------------------------------------- invariant

  /** The string in column `i` of row `k` is there, in a heap row of its own. */
  ghost predicate RefOk(db: Db, heaps: set<nat>, uses: map<Key, Use>, k: Key, i: nat, piece: seq<byte>) {
    && |piece| == 8 && RefOf(piece) in db
    && db[RefOf(piece)].table in heaps
    && HeapRowOk(db[RefOf(piece)].row, db[RefOf(piece)].table)
    && RefOf(piece) in uses && uses[RefOf(piece)] == Use(k, i)
  }

  ghost predicate ColumnOk(db: Db, schemes: map<nat, Fields>, heaps: set<nat>, uses: map<Key, Use>, k: Key, i: nat)
    requires k in db && db[k].table in schemes && i < |schemes[db[k].table]|
  {
    var fields := schemes[db[k].table];
    && End(fields, i) <= |db[k].row|
    && (fields[i].ftype == Str ==> RefOk(db, heaps, uses, k, i, Piece(fields, db[k].row, i)))
  }

  /** All string columns are in order, except the first `done` columns of row `x`. */
  ghost predicate StringsOk(db: Db, schemes: map<nat, Fields>, heaps: set<nat>, uses: map<Key, Use>, x: Option<Key>, done: nat) {
    && schemes.Keys !! heaps
    && (forall t :: t in schemes ==> SchemeOk(schemes[t]))
    && forall k, i :: k in db && db[k].table in schemes && 0 <= i < |schemes[db[k].table]| && (x == Some(k) ==> i >= done) ==>
      ColumnOk(db, schemes, heaps, uses, k, i)
  }

  /** Heap row `l` is referred to by a string column that has not been dropped. */
  ghost predicate InUse(db: Db, schemes: map<nat, Fields>, uses: map<Key, Use>, l: Key, x: Option<Key>, done: nat) {
    && l in uses
    && var k, i := uses[l].key, uses[l].column;
    && k in db && db[k].table in schemes && i < |schemes[db[k].table]|
    && var fields := schemes[db[k].table];
    && fields[i].ftype == Str && End(fields, i) <= |db[k].row|
    && |Piece(fields, db[k].row, i)| == 8 && RefOf(Piece(fields, db[k].row, i)) == l
    && (x == Some(k) ==> i >= done)
  }

  /** No heap row is left without a string column that refers to it. */
  ghost predicate NoLeaks(db: Db, schemes: map<nat, Fields>, heaps: set<nat>, uses: map<Key, Use>, x: Option<Key>, done: nat) {
    forall l :: l in db && db[l].table in heaps ==> InUse(db, schemes, uses, l, x, done)
  }

  /** `b` is `a` with more rows, none of them in a client table. */
  ghost predicate Grown(a: Db, b: Db, schemes: map<nat, Fields>) {
    && (forall k :: k in a ==> k in b && b[k] == a[k])
    && (forall k :: k in b && k !in a ==> b[k].table !in schemes)
  }

  /** From `a` to `b` the only new rows in heap tables are those in `added`. */
  ghost predicate Growth(a: Db, ha: set<nat>, b: Db, hb: set<nat>, schemes: map<nat, Fields>, added: set<Key>) {
    && ha <= hb && Grown(a, b, schemes) && added !! a.Keys
    && (forall k :: k in a && a[k].table in hb ==> a[k].table in ha)
    && (forall k :: k in b && k !in a && b[k].table in hb ==> k in added)
  }

  lemma GrowthThen(a: Db, ha: set<nat>, b: Db, hb: set<nat>, c: Db, hc: set<nat>, schemes: map<nat, Fields>, s: set<Key>, s': set<Key>)
    requires Growth(a, ha, b, hb, schemes, s) && Growth(b, hb, c, hc, schemes, s')
    ensures Growth(a, ha, c, hc, schemes, s + s')
  {
  }

  lemma GrownStrings(a: Db, b: Db, schemes: map<nat, Fields>, heaps: set<nat>, more: set<nat>, uses: map<Key, Use>, x: Option<Key>, done: nat)
    requires StringsOk(a, schemes, heaps, uses, x, done) && Grown(a, b, schemes)
    requires heaps <= more && schemes.Keys !! more
    ensures StringsOk(b, schemes, more, uses, x, done)
  {
    hide HeapRowOk;
    forall k, i | k in b && b[k].table in schemes && 0 <= i < |schemes[b[k].table]| && (x == Some(k) ==> i >= done)
      ensures ColumnOk(b, schemes, more, uses, k, i)
    {
      assert k in a && ColumnOk(a, schemes, heaps, uses, k, i);
    }
  }

  lemma GrownReads(a: Db, b: Db, schemes: map<nat, Fields>, heaps: set<nat>, uses: map<Key, Use>, k: Key)
    requires StringsOk(a, schemes, heaps, uses, None, 0) && (forall l :: l in a ==> l in b && b[l] == a[l])
    requires k in a && a[k].table in schemes
    ensures ReadRow(b, schemes[a[k].table], b[k].row) == ReadRow(a, schemes[a[k].table], a[k].row)
  {
    hide HeapRowOk, HeapText;
    var fields := schemes[a[k].table];
    forall i | 0 <= i < |fields| ensures ReadRow(b, fields, a[k].row)[i] == ReadRow(a, fields, a[k].row)[i] {
      assert ColumnOk(a, schemes, heaps, uses, k, i);
    }
  }

  // ---------------------------------------------------------------- storing a row

  /**
   * The first `n` columns of the bytes in hand read as the values, and their strings are in
   * heap rows that are new since `base`, one for each column.
   */
  ghost predicate Prepared(base: Db, db: Db, heaps: set<nat>, fields: Fields, values: seq<Value>, row: Row, n: nat, added: map<Key, nat>)
    requires n <= |fields| && |values| == |fields|
  {
    && added.Keys !! base.Keys && added.Keys <= db.Keys
    && (forall i :: 0 <= i < n ==> PieceReady(db, heaps, fields, values, row, i, added))
    && (forall l :: l in added ==> Referred(fields, row, n, l, added[l]))
  }

  /** Column `i` of the bytes in hand refers to heap row `l`. */
  ghost predicate Referred(fields: Fields, row: Row, n: nat, l: Key, i: nat)
    requires n <= |fields|
  {
    i < n && fields[i].ftype == Str && End(fields, i) <= |row| && |Piece(fields, row, i)| == 8 && RefOf(Piece(fields, row, i)) == l
  }

  ghost predicate PieceReady(db: Db, heaps: set<nat>, fields: Fields, values: seq<Value>, row: Row, i: nat, added: map<Key, nat>)
    requires i < |fields| && |values| == |fields|
  {
    End(fields, i) <= |row| && ColumnReady(db, heaps, fields[i], values[i], Piece(fields, row, i), i, added)
  }

  ghost predicate ColumnReady(db: Db, heaps: set<nat>, f: SchemeItem, value: Value, piece: seq<byte>, i: nat, added: map<Key, nat>) {
    && ReadColumn(db, f, piece) == Some(value)
    && (f.ftype == Str ==>
          && |piece| == 8 && RefOf(piece) in db && db[RefOf(piece)].table in heaps
          && HeapRowOk(db[RefOf(piece)].row, db[RefOf(piece)].table)
          && RefOf(piece) in added && added[RefOf(piece)] == i)
  }

  /** One more column of the bytes in hand. */
  lemma PreparedStep(base: Db, db: Db, heaps: set<nat>, db': Db, heaps': set<nat>, fields: Fields, values: seq<Value>,
                     row: Row, n: nat, added: map<Key, nat>, piece: seq<byte>, added': map<Key, nat>)
    requires n < |fields| && |values| == |fields| && |row| == Offset(fields, n) && |piece| == fields[n].maxSz
    requires Prepared(base, db, heaps, fields, values, row, n, added)
    requires heaps <= heaps' && (forall k :: k in base ==> k in db) && (forall k :: k in db ==> k in db' && db'[k] == db[k])
    requires ColumnReady(db', heaps', fields[n], values[n], piece, n, added')
    requires if fields[n].ftype == Str then RefOf(piece) !in db && added' == added[RefOf(piece) := n] else added' == added
    ensures Prepared(base, db', heaps', fields, values, row + piece, n + 1, added')
    ensures |row + piece| == Offset(fields, n + 1)
  {
    hide HeapRowOk, HeapText, CString, ReadColumn, ColumnReady, RefOf;
    AppendPiece(fields, row, n, piece);
    RefColumn(db', heaps', fields[n], values[n], piece, n, added');
    forall i | 0 <= i < n + 1 ensures PieceReady(db', heaps', fields, values, row + piece, i, added') {
      if i < n {
        assert PieceReady(db, heaps, fields, values, row, i, added);
        ColumnStays(db, heaps, db', heaps', fields[i], values[i], Piece(fields, row, i), i, added, added');
      }
    }
    forall l | l in added' ensures Referred(fields, row + piece, n + 1, l, added'[l]) {
      assert l in added ==> Referred(fields, row, n, l, added[l]);
    }
  }

  lemma RefColumn(db: Db, heaps: set<nat>, f: SchemeItem, value: Value, piece: seq<byte>, i: nat, added: map<Key, nat>)
    requires ColumnReady(db, heaps, f, value, piece, i, added)
    ensures f.ftype == Str ==> |piece| == 8 && RefOf(piece) in db
  {
    hide HeapRowOk, RefOf;
  }

  lemma ColumnStays(db: Db, heaps: set<nat>, db': Db, heaps': set<nat>, f: SchemeItem, value: Value, piece: seq<byte>, i: nat,
                    added: map<Key, nat>, added': map<Key, nat>)
    requires ColumnReady(db, heaps, f, value, piece, i, added)
    requires heaps <= heaps' && (forall k :: k in db ==> k in db' && db'[k] == db[k])
    requires forall k :: k in added && k in db ==> k in added' && added'[k] == added[k]
    ensures ColumnReady(db', heaps', f, value, piece, i, added')
  {
    hide HeapRowOk, HeapText, CString;
  }

  // ---------------------------------------------------------------- what clients see

  /** A row of a client table and what it reads as. */
  datatype Tuple = Tuple(table: nat, values: seq<Option<Value>>)

  /** The client tables, strings included. */
  ghost function Client(db: Db, schemes: map<nat, Fields>): map<Key, Tuple> {
    map k | k in db && db[k].table in schemes :: Tuple(db[k].table, ReadRow(db, schemes[db[k].table], db[k].row))
  }

  ghost function Stored(values: seq<Value>): (s: seq<Option<Value>>)
    ensures |s| == |values|
  {
    seq(|values|, i requires 0 <= i < |values| => Some(values[i]))
  }

  /** The first columns of a row read as these values. */
  ghost predicate ReadsAs(db: Db, fields: Fields, row: Row, values: seq<Value>) {
    && |values| <= |fields|
    && forall j :: 0 <= j < |values| ==> End(fields, j) <= |row| && ReadColumn(db, fields[j], Piece(fields, row, j)) == Some(values[j])
  }

  lemma ReadsMore(db: Db, fields: Fields, row: Row, values: seq<Value>, value: Value)
    requires ReadsAs(db, fields, row, values) && |values| < |fields|
    requires End(fields, |values|) <= |row| && ReadColumn(db, fields[|values|], Piece(fields, row, |values|)) == Some(value)
    ensures ReadsAs(db, fields, row, values + [value])
  {
    hide ReadColumn, Piece, Offset;
  }

  lemma ReadsAll(db: Db, fields: Fields, row: Row, values: seq<Value>)
    requires ReadsAs(db, fields, row, values) && |values| == |fields|
    ensures ReadRow(db, fields, row) == Stored(values)
  {
    hide ReadColumn;
  }

  lemma ClientGrown(a: Db, b: Db, schemes: map<nat, Fields>, heaps: set<nat>, uses: map<Key, Use>)
    requires StringsOk(a, schemes, heaps, uses, None, 0) && Grown(a, b, schemes)
    ensures Client(b, schemes) == Client(a, schemes)
  {
    hide ReadRow, StringsOk;
    forall k | k in a && a[k].table in schemes
      ensures ReadRow(b, schemes[a[k].table], b[k].row) == ReadRow(a, schemes[a[k].table], a[k].row)
    {
      GrownReads(a, b, schemes, heaps, uses, k);
    }
  }

  /** Storing a row is storing one tuple. */
  lemma ClientStored(base: Db, db: Db, schemes: map<nat, Fields>, heaps: set<nat>, uses: map<Key, Use>, x: Option<Key>,
                     t: nat, values: seq<Value>, row: Row, k: Key, n: nat)
    requires StringsOk(base, schemes, heaps, uses, x, n) && Grown(base, db, schemes) && t in schemes
    requires if k in db then x == Some(k) && db[k].table == t else x == None
    requires ReadRow(db[k := Cell(t, row)], schemes[t], row) == Stored(values)
    ensures Client(db[k := Cell(t, row)], schemes) == Client(base, schemes)[k := Tuple(t, Stored(values))]
  {
    hide ReadRow, StringsOk;
    var after := db[k := Cell(t, row)];
    forall l | l in base && base[l].table in schemes && l != k
      ensures ReadRow(after, schemes[base[l].table], base[l].row) == ReadRow(base, schemes[base[l].table], base[l].row)
    {
      OtherReads(base, db, schemes, heaps, uses, x, t, row, k, l, n);
    }
  }

  /** Dropping one string of row `k` is felt by no other row. */
  lemma ClientStringDropped(db: Db, schemes: map<nat, Fields>, heaps: set<nat>, uses: map<Key, Use>, k: Key, i: nat, loc: Key)
    requires k in db && db[k].table in schemes && i < |schemes[db[k].table]| && StringsOk(db, schemes, heaps, uses, Some(k), i)
    requires loc in uses && uses[loc] == Use(k, i) && loc in db && db[loc].table in heaps
    ensures Client(db - {loc}, schemes) - {k} == Client(db, schemes) - {k}
  {
    hide ReadRow, StringsOk;
    assert schemes.Keys !! heaps by { DisjointNames(db, schemes, heaps, uses, Some(k), i); }
    forall l | l in db && db[l].table in schemes && l != k
      ensures ReadRow(db - {loc}, schemes[db[l].table], db[l].row) == ReadRow(db, schemes[db[l].table], db[l].row)
    {
      OtherRowKept(db, schemes, heaps, uses, k, i, loc, l);
    }
  }

  lemma DisjointNames(db: Db, schemes: map<nat, Fields>, heaps: set<nat>, uses: map<Key, Use>, x: Option<Key>, done: nat)
    requires StringsOk(db, schemes, heaps, uses, x, done)
    ensures schemes.Keys !! heaps
  {
    hide ColumnOk;
  }

  lemma OtherRowKept(db: Db, schemes: map<nat, Fields>, heaps: set<nat>, uses: map<Key, Use>, k: Key, i: nat, loc: Key, l: Key)
    requires StringsOk(db, schemes, heaps, uses, Some(k), i) && loc in uses && uses[loc] == Use(k, i)
    requires l in db && db[l].table in schemes && l != k
    ensures ReadRow(db - {loc}, schemes[db[l].table], db[l].row) == ReadRow(db, schemes[db[l].table], db[l].row)
  {
    hide HeapRowOk, HeapText, CString;
    var fields := schemes[db[l].table];
    forall j | 0 <= j < |fields| ensures ReadRow(db - {loc}, fields, db[l].row)[j] == ReadRow(db, fields, db[l].row)[j] {
      assert ColumnOk(db, schemes, heaps, uses, l, j);
    }
  }

  /** Dropping the row itself then drops its tuple. */
  lemma ClientRowDropped(db: Db, schemes: map<nat, Fields>, heaps: set<nat>, uses: map<Key, Use>, k: Key, n: nat)
    requires k in db && db[k].table in schemes && StringsOk(db, schemes, heaps, uses, Some(k), n)
    ensures Client(db - {k}, schemes) == Client(db, schemes) - {k}
  {
    hide HeapRowOk, HeapText, CString, ReadRow;
    forall l | l in db && db[l].table in schemes && l != k
      ensures ReadRow(db - {k}, schemes[db[l].table], db[l].row) == ReadRow(db, schemes[db[l].table], db[l].row)
    {
      RowReadsOn(db, schemes, heaps, uses, k, n, l);
    }
  }

  lemma RowReadsOn(db: Db, schemes: map<nat, Fields>, heaps: set<nat>, uses: map<Key, Use>, k: Key, n: nat, l: Key)
    requires k in db && db[k].table in schemes && StringsOk(db, schemes, heaps, uses, Some(k), n)
    requires l in db && db[l].table in schemes && l != k
    ensures ReadRow(db - {k}, schemes[db[l].table], db[l].row) == ReadRow(db, schemes[db[l].table], db[l].row)
  {
    hide HeapRowOk, HeapText, CString;
    var fields := schemes[db[l].table];
    forall j | 0 <= j < |fields| ensures ReadRow(db - {k}, fields, db[l].row)[j] == ReadRow(db, fields, db[l].row)[j] {
      assert ColumnOk(db, schemes, heaps, uses, l, j);
    }
  }

  ghost function Uses(uses: map<Key, Use>, added: map<Key, nat>, k: Key): map<Key, Use> {
    map l | l in uses.Keys + added.Keys :: if l in added then Use(k, added[l]) else uses[l]
  }

  /** Storing prepared bytes, in a new row or over the row `x` whose strings were dropped. */
  lemma RowStored(base: Db, db: Db, schemes: map<nat, Fields>, heaps: set<nat>, uses: map<Key, Use>, x: Option<Key>,
                  t: nat, values: seq<Value>, row: Row, added: map<Key, nat>, k: Key)
    requires t in schemes && |values| == |schemes[t]|
    requires StringsOk(base, schemes, heaps, uses, x, |schemes[t]|) && StringsOk(db, schemes, heaps, uses, x, |schemes[t]|)
    requires Grown(base, db, schemes)
    requires Prepared(base, db, heaps, schemes[t], values, row, |schemes[t]|, added)
    requires if k in db then x == Some(k) && db[k].table == t else x == None
    ensures var after := db[k := Cell(t, row)];
      && StringsOk(after, schemes, heaps, Uses(uses, added, k), None, 0)
      && ReadRow(after, schemes[t], row) == Stored(values)
  {
    hide HeapRowOk, HeapText, CString, Grown, PieceReady, ColumnOk, ReadRow;
    var after := db[k := Cell(t, row)];
    var fields := schemes[t];
    forall l, i | l in after && after[l].table in schemes && 0 <= i < |schemes[after[l].table]|
      ensures ColumnOk(after, schemes, heaps, Uses(uses, added, k), l, i)
    {
      if l == k {
        NewColumn(db, schemes, heaps, uses, t, values, row, added, k, i);
      } else {
        OldColumn(base, db, schemes, heaps, uses, x, added, l, i, |fields|);
        OldColumnStays(db, schemes, heaps, uses, t, row, added, k, l, i);
      }
    }
    NewReads(db, heaps, fields, values, t, row, added, k);
  }

  lemma NewColumn(db: Db, schemes: map<nat, Fields>, heaps: set<nat>, uses: map<Key, Use>,
                  t: nat, values: seq<Value>, row: Row, added: map<Key, nat>, k: Key, i: nat)
    requires t in schemes && i < |schemes[t]| && |values| == |schemes[t]| && t !in heaps
    requires PieceReady(db, heaps, schemes[t], values, row, i, added)
    requires k in db ==> db[k].table == t
    ensures ColumnOk(db[k := Cell(t, row)], schemes, heaps, Uses(uses, added, k), k, i)
  {
    hide HeapRowOk, HeapText, CString;
  }

  lemma OldColumnStays(db: Db, schemes: map<nat, Fields>, heaps: set<nat>, uses: map<Key, Use>,
                       t: nat, row: Row, added: map<Key, nat>, k: Key, l: Key, i: nat)
    requires l in db && db[l].table in schemes && i < |schemes[db[l].table]| && l != k && t !in heaps
    requires ColumnOk(db, schemes, heaps, uses, l, i)
    requires schemes[db[l].table][i].ftype == Str ==> RefOf(Piece(schemes[db[l].table], db[l].row, i)) !in added
    requires k in db ==> db[k].table == t
    ensures ColumnOk(db[k := Cell(t, row)], schemes, heaps, Uses(uses, added, k), l, i)
  {
    hide HeapRowOk;
  }

  lemma NewReads(db: Db, heaps: set<nat>, fields: Fields, values: seq<Value>, t: nat, row: Row, added: map<Key, nat>, k: Key)
    requires |values| == |fields| && (k in db ==> db[k].table == t) && t !in heaps
    requires forall i :: 0 <= i < |fields| ==> PieceReady(db, heaps, fields, values, row, i, added)
    ensures ReadRow(db[k := Cell(t, row)], fields, row) == Stored(values)
  {
    hide HeapRowOk, HeapText, CString;
    forall i | 0 <= i < |fields| ensures ReadRow(db[k := Cell(t, row)], fields, row)[i] == Some(values[i]) {
      assert PieceReady(db, heaps, fields, values, row, i, added);
    }
  }

  /** Every heap row is still in use, now that the new ones have their row. */
  lemma StoredNoLeaks(base: Db, was: set<nat>, db: Db, schemes: map<nat, Fields>, heaps: set<nat>, uses: map<Key, Use>, x: Option<Key>,
                      t: nat, values: seq<Value>, row: Row, added: map<Key, nat>, k: Key)
    requires t in schemes && |values| == |schemes[t]| && t !in heaps
    requires NoLeaks(base, schemes, was, uses, x, |schemes[t]|) && Growth(base, was, db, heaps, schemes, added.Keys)
    requires Prepared(base, db, heaps, schemes[t], values, row, |schemes[t]|, added)
    requires if k in db then x == Some(k) && db[k].table == t else x == None
    ensures NoLeaks(db[k := Cell(t, row)], schemes, heaps, Uses(uses, added, k), None, 0)
  {
    hide PieceReady;
    var after := db[k := Cell(t, row)];
    forall l | l in after && after[l].table in heaps
      ensures InUse(after, schemes, Uses(uses, added, k), l, None, 0)
    {
      if l in added {
        assert Referred(schemes[t], row, |schemes[t]|, l, added[l]);
      } else {
        assert l in base && InUse(base, schemes, uses, l, x, |schemes[t]|);
      }
    }
  }

  /** A column of an older row refers to none of the new heap rows. */
  lemma OldColumn(base: Db, db: Db, schemes: map<nat, Fields>, heaps: set<nat>, uses: map<Key, Use>, x: Option<Key>,
                  added: map<Key, nat>, l: Key, i: nat, n: nat)
    requires StringsOk(base, schemes, heaps, uses, x, n) && StringsOk(db, schemes, heaps, uses, x, n) && Grown(base, db, schemes)
    requires added.Keys !! base.Keys
    requires l in db && db[l].table in schemes && i < |schemes[db[l].table]| && x != Some(l)
    ensures ColumnOk(db, schemes, heaps, uses, l, i) && l in base && base[l] == db[l]
    ensures schemes[db[l].table][i].ftype == Str ==> RefOf(Piece(schemes[db[l].table], db[l].row, i)) !in added
  {
    hide HeapRowOk;
    assert l in base;
    assert ColumnOk(base, schemes, heaps, uses, l, i);
  }

  /** Rows other than the stored one read as before. */
  lemma OtherReads(base: Db, db: Db, schemes: map<nat, Fields>, heaps: set<nat>, uses: map<Key, Use>, x: Option<Key>,
                   t: nat, row: Row, k: Key, l: Key, n: nat)
    requires StringsOk(base, schemes, heaps, uses, x, n) && Grown(base, db, schemes) && t in schemes
    requires if k in db then x == Some(k) && db[k].table == t else x == None
    requires l in base && base[l].table in schemes && l != k
    ensures ReadRow(db[k := Cell(t, row)], schemes[base[l].table], base[l].row) == ReadRow(base, schemes[base[l].table], base[l].row)
  {
    hide HeapRowOk, HeapText, CString;
    var fields := schemes[base[l].table];
    var after := db[k := Cell(t, row)];
    forall i | 0 <= i < |fields| ensures ReadRow(after, fields, base[l].row)[i] == ReadRow(base, fields, base[l].row)[i] {
      assert ColumnOk(base, schemes, heaps, uses, l, i);
    }
  }

  // ---------------------------------------------------------------- dropping a row

  /** The heap rows that the string columns from `from` up to `to` of a row refer to. */
  ghost function Strings(fields: Fields, row: Row, from: nat, to: nat): set<Key>
    requires to <= |fields|
  {
    set i | from <= i < to && fields[i].ftype == Str && End(fields, i) <= |row| && |Piece(fields, row, i)| == 8 ::
      RefOf(Piece(fields, row, i))
  }

  /** Dropping the string of column `i` of row `k` leaves all other columns of all rows in order. */
  lemma StringDropped(db: Db, schemes: map<nat, Fields>, heaps: set<nat>, uses: map<Key, Use>, k: Key, i: nat)
    requires k in db && db[k].table in schemes && i < |schemes[db[k].table]|
    requires StringsOk(db, schemes, heaps, uses, Some(k), i)
    requires schemes[db[k].table][i].ftype == Str
    ensures ColumnOk(db, schemes, heaps, uses, k, i)
    ensures var loc := RefOf(Piece(schemes[db[k].table], db[k].row, i));
      && loc in db && loc != k && db[loc].table in heaps && HeapRowOk(db[loc].row, db[loc].table)
      && StringsOk(db - {loc}, schemes, heaps, uses, Some(k), i + 1)
  {
    hide HeapRowOk;
    assert ColumnOk(db, schemes, heaps, uses, k, i);
    var loc := RefOf(Piece(schemes[db[k].table], db[k].row, i));
    var less := db - {loc};
    forall l, j | l in less && less[l].table in schemes && 0 <= j < |schemes[less[l].table]| && (Some(k) == Some(l) ==> j >= i + 1)
      ensures ColumnOk(less, schemes, heaps, uses, l, j)
    {
      assert ColumnOk(db, schemes, heaps, uses, l, j);
    }
  }

  lemma RowDropped(db: Db, schemes: map<nat, Fields>, heaps: set<nat>, uses: map<Key, Use>, k: Key, n: nat)
    requires k in db && db[k].table in schemes && StringsOk(db, schemes, heaps, uses, Some(k), n)
    ensures StringsOk(db - {k}, schemes, heaps, uses, None, 0)
  {
    hide HeapRowOk;
    var less := db - {k};
    forall l, j | l in less && less[l].table in schemes && 0 <= j < |schemes[less[l].table]|
      ensures ColumnOk(less, schemes, heaps, uses, l, j)
    {
      assert ColumnOk(db, schemes, heaps, uses, l, j);
    }
  }

  /** Without its last reader a heap row goes, and all others keep theirs. */
  lemma StringDroppedNoLeaks(db: Db, schemes: map<nat, Fields>, heaps: set<nat>, uses: map<Key, Use>, k: Key, i: nat, loc: Key)
    requires NoLeaks(db, schemes, heaps, uses, Some(k), i)
    requires k in db && db[k].table in schemes && i < |schemes[db[k].table]| && End(schemes[db[k].table], i) <= |db[k].row|
    requires |Piece(schemes[db[k].table], db[k].row, i)| == 8 && loc == RefOf(Piece(schemes[db[k].table], db[k].row, i))
    requires loc in db && db[loc].table !in schemes
    ensures NoLeaks(db - {loc}, schemes, heaps, uses, Some(k), i + 1)
  {
    forall l | l in db - {loc} && db[l].table in heaps ensures InUse(db - {loc}, schemes, uses, l, Some(k), i + 1) {
      assert InUse(db, schemes, uses, l, Some(k), i);
    }
  }

  lemma RowDroppedNoLeaks(db: Db, schemes: map<nat, Fields>, heaps: set<nat>, uses: map<Key, Use>, k: Key, n: nat)
    requires NoLeaks(db, schemes, heaps, uses, Some(k), n)
    requires k in db && db[k].table in schemes && n == |schemes[db[k].table]|
    ensures NoLeaks(db - {k}, schemes, heaps, uses, None, 0)
  {
    forall l | l in db - {k} && db[l].table in heaps ensures InUse(db - {k}, schemes, uses, l, None, 0) {
      assert InUse(db, schemes, uses, l, Some(k), n);
    }
  }
}
