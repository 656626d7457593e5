/** Cursors over client tables: rows are read with their strings before the filter sees them. */
module RowsIterators {
  import opened Common
  import opened Bytes
  import opened PageRows
  import opened StorageModel
  import opened StorageFrames
  import opened CursorModel
  import opened CursorSteps
  import opened TableFrames
  import opened StorageEngine
  import opened TableMap
  import opened RowFormat
  import opened StringStore
  import opened Catalog
  import opened Consistency
  import opened Databases
  import opened PageCosts

  type Condition = seq<Value> -> bool

  /** The values of an update, columns without a new value keeping theirs. */
  function Filled(changes: seq<Option<Value>>, current: seq<Value>): (s: seq<Value>)
    requires |changes| == |current|
    ensures |s| == |current|
  {
    seq(|current|, i requires 0 <= i < |current| => if changes[i].Some? then changes[i].value else current[i])
  }

  /** Every column has its new value where there is one, and the value of before where there is none. */
  ghost predicate TakesNew(changes: seq<Option<Value>>, was: seq<Value>, now: seq<Option<Value>>) {
    && |changes| == |was| == |now|
    && (forall i :: 0 <= i < |changes| && changes[i].Some? ==> now[i] == changes[i])
    && (forall i :: 0 <= i < |changes| && changes[i].None? ==> now[i] == Some(was[i]))
  }

  lemma FilledTakes(changes: seq<Option<Value>>, current: seq<Value>)
    requires |changes| == |current|
    ensures TakesNew(changes, current, Stored(Filled(changes, current)))
  {
  }

  /** A column as read from the file. */
  function ReadPiece(pages: map<nat, Page>, f: SchemeItem, piece: seq<byte>): Value {
    if f.ftype == Str then
      if |piece| == 8 && RefOf(piece).page in pages && RefOf(piece).row < |pages[RefOf(piece).page].slots|
         && pages[RefOf(piece).page].slots[RefOf(piece).row].Some?
      then Text(HeapText(pages[RefOf(piece).page].slots[RefOf(piece).row].value))
      else Text([])
    else if f.ftype == Chars then Text(CString(piece))
    else Raw(piece)
  }

  function ReadFields(pages: map<nat, Page>, fields: Fields, row: Row): (s: seq<Value>)
    ensures |s| == |fields|
  {
    seq(|fields|, i requires 0 <= i < |fields| =>
      if End(fields, i) <= |row| then ReadPiece(pages, fields[i], Piece(fields, row, i)) else Raw([]))
  }

  /** The condition on rows of the file that a condition on column values amounts to. */
  function Passing(pages: map<nat, Page>, fields: Fields, cond: Condition): Filter {
    (row: Row) => cond(ReadFields(pages, fields, row))
  }

  /** What the search reads is what the tables hold. */
  lemma ReadFieldsExact(v: View, tabs: map<nat, Tab>, n: nat, schemes: map<nat, Fields>, heaps: set<nat>, uses: map<Key, Use>, k: Key)
    requires Consistent(Contents(v), tabs, n, schemes, heaps, uses, None, 0)
    requires k in Contents(v) && Contents(v)[k].table in schemes
    ensures var fields := schemes[Contents(v)[k].table];
      Stored(ReadFields(v.pages, fields, Contents(v)[k].row)) == ReadRow(Contents(v), fields, Contents(v)[k].row)
  {
    hide Consistent, HeapText, CString, RefOf, ColumnOk, CellAt, HeapRowOk;
    var db := Contents(v);
    var fields := schemes[db[k].table];
    forall i | 0 <= i < |fields|
      ensures Stored(ReadFields(v.pages, fields, db[k].row))[i] == ReadRow(db, fields, db[k].row)[i]
    {
      AnyColumn(db, tabs, n, schemes, heaps, uses, k, i);
      if fields[i].ftype == Str {
        Reference(db, schemes, heaps, uses, k, i);
        CellBytes(v, RefOf(Piece(fields, db[k].row, i)));
      }
    }
  }

  lemma StoredSame(a: seq<Value>, b: seq<Value>)
    requires Stored(a) == Stored(b)
    ensures a == b
  {
    assert |Stored(a)| == |a| && |Stored(b)| == |b|;
    forall i | 0 <= i < |a| ensures a[i] == b[i] {
      assert Stored(a)[i] == Stored(b)[i];
    }
  }

  lemma SameTuple(a: map<Key, Tuple>, b: map<Key, Tuple>, k: Key, l: Key)
    requires a - {k} == b - {k} && l != k
    ensures l in a <==> l in b
    ensures l in a ==> a[l] == b[l]
  {
    assert l in a - {k} <==> l in b - {k};
    if l in a {
      assert (a - {k})[l] == (b - {k})[l];
    }
  }

  /** A row that reads the same to clients in two states reads the same to the search. */
  lemma ReadAlike(v: View, w: View, tv: map<nat, Tab>, tw: map<nat, Tab>, nv: nat, nw: nat, schemes: map<nat, Fields>,
                  hv: set<nat>, hw: set<nat>, uv: map<Key, Use>, uw: map<Key, Use>, t: nat, k: Key, l: Key)
    requires Consistent(Contents(v), tv, nv, schemes, hv, uv, None, 0) && Consistent(Contents(w), tw, nw, schemes, hw, uw, None, 0)
    requires t in schemes && t != FREE_PAGES && l != k
    requires RowAt(v, t, l.page, l.row).Some? && RowAt(w, t, l.page, l.row) == RowAt(v, t, l.page, l.row)
    requires Client(Contents(v), schemes) - {k} == Client(Contents(w), schemes) - {k}
    ensures ReadFields(v.pages, schemes[t], RowAt(v, t, l.page, l.row).value) == ReadFields(w.pages, schemes[t], RowAt(v, t, l.page, l.row).value)
  {
    hide Consistent, RowAt, CellAt, Contents, ReadFields, ReadRow, Stored;
    RowIsCell(v, t, l);
    RowIsCell(w, t, l);
    ReadFieldsExact(v, tv, nv, schemes, hv, uv, l);
    ReadFieldsExact(w, tw, nw, schemes, hw, uw, l);
    SameTuple(Client(Contents(v), schemes), Client(Contents(w), schemes), k, l);
    StoredSame(ReadFields(v.pages, schemes[t], RowAt(v, t, l.page, l.row).value),
               ReadFields(w.pages, schemes[t], RowAt(v, t, l.page, l.row).value));
  }

  /** A change of one row of a client table, through a state `m` at which only other tables have changed. */
  ghost predicate OneRow(v: View, m: View, w: View, schemes: map<nat, Fields>, t: nat, k: Key) {
    && Inv(v, 0) && Inv(m, 0) && AllKept(v, m, schemes.Keys) && t in schemes && t != FREE_PAGES
    && SameRowsBut(m, w, t, k.page, k.row)
    && Client(Contents(v), schemes) - {k} == Client(Contents(w), schemes) - {k}
  }

  lemma OtherRowsAlike(v: View, m: View, w: View, tv: map<nat, Tab>, tw: map<nat, Tab>, nv: nat, nw: nat, schemes: map<nat, Fields>,
                       hv: set<nat>, hw: set<nat>, uv: map<Key, Use>, uw: map<Key, Use>, t: nat, k: Key, cond: Condition)
    requires OneRow(v, m, w, schemes, t, k)
    requires Consistent(Contents(v), tv, nv, schemes, hv, uv, None, 0) && Consistent(Contents(w), tw, nw, schemes, hw, uw, None, 0)
    ensures forall p: nat, r: nat :: RowAt(w, t, p, r).Some? && Key(p, r) != k ==>
      Passing(v.pages, schemes[t], cond)(RowAt(w, t, p, r).value) == Passing(w.pages, schemes[t], cond)(RowAt(w, t, p, r).value)
  {
    hide Storage.OnBytes, AllListed, Inv, Consistent, RowAt, CellAt, Contents, ReadFields, Client, TableKept;
    assert TableKept(v, m, t);
    RowsKept(v, m, t);
    forall p: nat, r: nat | RowAt(w, t, p, r).Some? && Key(p, r) != k
      ensures Passing(v.pages, schemes[t], cond)(RowAt(w, t, p, r).value) == Passing(w.pages, schemes[t], cond)(RowAt(w, t, p, r).value)
    {
      assert (p, r) != (k.page, k.row);
      assert RowAt(w, t, p, r) == RowAt(m, t, p, r) == RowAt(v, t, p, r);
      ReadAlike(v, w, tv, tw, nv, nw, schemes, hv, hw, uv, uw, t, k, Key(p, r));
    }
  }

  /** Removing the current row, its strings first: what is ahead is ahead still, as rows read now. */
  lemma RemovalGoesOn(v: View, m: View, w: View, t: nat, c: Cursor, i: nat, k: nat, f: Filter, g: Filter) returns (j: nat)
    requires Inv(v, 0) && Inv(m, 0) && TableKept(v, m, t) && t != FREE_PAGES && c.row > 0
    requires CursorOk(v, t, c, i) && OnPage(v.lists[ListId(t, c.full)], c, i)
    requires RowRemoved(m, w, t, c.page, c.row - 1, k) && AgreeAll(w, t, f, g)
    ensures var d := Cursor(c.page, c.row, false);
      && CursorOk(w, t, d, j)
      && (Behind(v, t, c, i, c.row - 1, f) ==>
            Pending(w, t, d, j, g) == Pending(v, t, c, i, f) && Behind(w, t, d, j, d.row, g))
  {
    hide Storage.OnBytes, AllListed, Inv, Pending, Behind, CursorOk, RowRemoved, TableKept, AgreeAll, AgreeAhead,
         NoMoving, Untouched, RowAt, SameRowsBut, Transits, Geometry, Lists, Occupancy, Records, Tiling;
    InvParts(v, 0);
    CursorKept(v, m, t, c, i, f);
    j := RemovalAhead(m, w, t, c, i, k, f);
    RemovedGood(m, w, t, c.page, c.row - 1, k);
    InvParts(w, 0);
    var d := Cursor(c.page, c.row, false);
    CursorLists(v, t, c, i);
    AllAhead(w, t, d, f, g);
    SameAheadBy(w, t, d, j, f, g);
    if Behind(v, t, c, i, c.row - 1, f) {
      SameBehindBy(w, t, d, j, d.row, f, g);
    }
  }

  lemma CursorLists(v: View, t: nat, c: Cursor, i: nat)
    requires CursorOk(v, t, c, i)
    ensures ListId(t, false) in v.lists && ListId(t, true) in v.lists
  {
  }

  lemma AllAhead(v: View, t: nat, c: Cursor, f: Filter, g: Filter)
    requires AgreeAll(v, t, f, g)
    ensures AgreeAhead(v, t, c, f, g)
  {
  }

  /** Overwriting the current row: nothing changes ahead, as rows read now. */
  lemma ReplacementGoesOn(v: View, m: View, w: View, t: nat, c: Cursor, i: nat, row: Row, f: Filter, g: Filter)
    requires Inv(v, 0) && Inv(m, 0) && TableKept(v, m, t) && t != FREE_PAGES && c.row > 0
    requires CursorOk(v, t, c, i) && OnPage(v.lists[ListId(t, c.full)], c, i)
    requires RowReplaced(m, w, t, c.page, c.row - 1, row) && AgreeAhead(w, t, c, f, g)
    ensures CursorOk(w, t, c, i) && Pending(w, t, c, i, g) == Pending(v, t, c, i, f)
  {
    hide Storage.OnBytes, AllListed, Inv, Pending, Behind, CursorOk, RowReplaced, TableKept, AgreeAhead, NoMoving, Untouched,
         RowAt, SameRowsBut, Transits, Geometry, Lists, Occupancy, Records, Tiling;
    InvParts(v, 0);
    CursorKept(v, m, t, c, i, f);
    ReplacementAhead(m, w, t, c, i, row, f);
    ReplacedGood(m, w, t, c.page, c.row - 1, row);
    InvParts(w, 0);
    SameAheadBy(w, t, c, i, f, g);
  }

  // ---------------------------------------------------------------- the cursor

  class RowsIterator {
    const db: Database
    const table: nat
    const fields: Fields
    var cond: Condition
    var pagePointer: nat
    var rowPointer: nat
    var onFullList: bool
    ghost var position: nat

    function At(): Cursor
      reads this
    {
      Cursor(pagePointer, rowPointer, onFullList)
    }

    /** The condition as it reads rows now. */
    function Now(): Filter
      reads this, db.st
    {
      Passing(db.st.pages, fields, cond)
    }

    ghost predicate Valid()
      reads this, db, db.st
    {
      && db.Valid() && table in db.schemes && db.schemes[table] == fields
      && CursorOk(db.st.V(), table, At(), position)
    }

    /** The cursor stands just behind a row. */
    ghost predicate HasCurrent()
      reads this, db, db.st
    {
      && Valid() && rowPointer > 0 && OnPage(db.st.V().lists[ListId(table, onFullList)], At(), position)
      && RowAt(db.st.V(), table, pagePointer, rowPointer - 1).Some?
    }

    function Current(): Key
      requires rowPointer > 0
      reads this
    {
      Key(pagePointer, rowPointer - 1)
    }

    /** Keys of the rows still ahead that pass, as rows read now. */
    ghost function Ahead(): seq<Key>
      requires Valid()
      reads this, db, db.st
    {
      Pending(db.st.V(), table, At(), position, Now())
    }

    ghost predicate NothingBehind()
      requires Valid()
      reads this, db, db.st
    {
      Behind(db.st.V(), table, At(), position, rowPointer, Now())
    }

    ghost predicate OnlyCurrentBehind()
      requires HasCurrent()
      reads this, db, db.st
    {
      Behind(db.st.V(), table, At(), position, rowPointer - 1, Now())
    }

    constructor (d: Database, t: nat, f: Fields, c: Condition)
      requires d.Valid() && t in d.schemes && d.schemes[t] == f
      ensures db == d && table == t && fields == f && cond == c && Valid() && NothingBehind()
      ensures ListId(t, false) in d.st.V().lists && ListId(t, true) in d.st.V().lists
      ensures Ahead() == TableHits(d.st.V(), t, Passing(d.st.pages, f, c))
      ensures t in d.st.tabs && pagePointer == d.st.tabs[t].firstFree && !onFullList
    {
      hide Storage.OnBytes, AllListed, Inv, NoMoving, Transits, Consistent, NoLeaks, Pending, Behind, CursorOk,
           TableHits, Geometry, Lists, Occupancy, Records, Tiling, SchemeOk, RowSize, Contents;
      ConsistentNames(d.Db(), d.st.tabs, d.st.tablesNumber, d.schemes, d.heaps, d.uses, None, 0);
      db, table, fields, cond := d, t, f, c;
      pagePointer, rowPointer, onFullList := d.st.tabs[t].firstFree, 0, false;
      position := if d.st.tabs[t].firstFree == 0 then 0 else 1;
      new;
      InvParts(d.st.V(), 0);
      StartPending(d.st.V(), t, Now());
    }

    /** Back to the start of the table, with a new condition. */
    method Restart(c: Condition)
      requires Valid()
      modifies this
      ensures cond == c && Valid() && NothingBehind()
      ensures ListId(table, false) in db.st.V().lists && ListId(table, true) in db.st.V().lists
      ensures Ahead() == TableHits(db.st.V(), table, Passing(db.st.pages, fields, c))
      ensures table in db.st.tabs && pagePointer == db.st.tabs[table].firstFree && !onFullList
    {
      hide Storage.OnBytes, AllListed, Inv, NoMoving, Transits, Consistent, NoLeaks, Pending, Behind, CursorOk,
           TableHits, Geometry, Lists, Occupancy, Records, Tiling, SchemeOk, RowSize, Contents;
      ConsistentNames(db.Db(), db.st.tabs, db.st.tablesNumber, db.schemes, db.heaps, db.uses, None, 0);
      cond, pagePointer, rowPointer, onFullList := c, db.st.tabs[table].firstFree, 0, false;
      position := if db.st.tabs[table].firstFree == 0 then 0 else 1;
      InvParts(db.st.V(), 0);
      StartPending(db.st.V(), table, Now());
    }

    method Next() returns (res: IterResult)
      requires Valid()
      modifies this
      ensures res == Strayed <==> old(pagePointer == 0 && !onFullList) && db.st.pagesNumber >= 0x1_0000
      ensures cond == old(cond)
      ensures res == SearchEnd ==> Valid() && old(Ahead()) == [] && Ahead() == [] && pagePointer == 0
      ensures res == RowFound ==> HasCurrent() && old(Ahead()) == [Current()] + Ahead()
      ensures res == RowFound && old(NothingBehind()) ==> OnlyCurrentBehind()
    {
      hide Storage.OnBytes, AllListed, Inv, NoMoving, Transits, Consistent, NoLeaks, Pending, Behind, CursorOk, RowAt;
      ghost var c, i := At(), position;
      NextReady(db.st.V());
      var r, d, j := db.st.NextRow(table, At(), Now(), position);
      res := r;
      pagePointer, rowPointer, onFullList, position := d.page, d.row, d.full, j;
      if res == RowFound {
        FoundRow(db.st.V(), table, c, i, d, j, Now());
      }
    }

    /** `rows_iterator_remove_current`. */
    method RemoveCurrent() returns (ok: bool)
      requires HasCurrent()
      modifies this, db.st
      ensures cond == old(cond)
      ensures !ok ==> db.st.pagesNumber >= 0x1_0000
      ensures db.GrewBy(RemovePages(fields), 0)
      ensures ok ==> Valid() && db.Tuples() == old(db.Tuples()) - {old(Current())} && old(Current()) in old(db.Tuples())
      ensures ok ==> db.st.tablesNumber == old(db.st.tablesNumber)
      ensures ok && old(OnlyCurrentBehind()) ==> NothingBehind() && Ahead() == old(Ahead())
    {
      hide Storage.OnBytes, AllListed, Inv, NoMoving, Transits, Consistent, NoLeaks, Pending, Behind, CursorOk, RowAt, CellAt,
           Client, Strings, AllKept, RowRemoved, AgreeAll, Passing;
      ghost var v, c, i := db.st.V(), At(), position;
      ghost var tabs, n := db.st.tabs, db.st.tablesNumber;
      ConsistentNames(db.Db(), tabs, n, db.schemes, db.heaps, db.uses, None, 0);
      RowPage(v, table, pagePointer, rowPointer - 1);
      RowIsCell(v, table, Current());
      InClient(db.Db(), db.schemes, Current());
      if pagePointer == 0 || rowPointer == 0 {
        assert false;
      }
      ghost var m, k;
      ok, m, k := db.Remove(table, fields, Current());
      if ok {
        RemovedAlike(v, m, db.st.V(), tabs, db.st.tabs, n, db.st.tablesNumber, db.schemes, db.heaps, db.uses, table, Current(), k, cond);
        position := RemovalGoesOn(v, m, db.st.V(), table, c, i, k, Passing(v.pages, fields, cond), Now());
      }
      if onFullList {
        onFullList := false;
      }
    }

    /** The values of the row in hand. */
    function CurrentValues(): seq<Value>
      requires HasCurrent()
      reads this, db, db.st
    {
      ReadFields(db.st.pages, fields, db.st.pages[pagePointer].slots[rowPointer - 1].value)
    }

    /** `rows_iterator_update_current`. */
    method UpdateCurrent(changes: seq<Option<Value>>) returns (ok: bool)
      requires HasCurrent() && |changes| == |fields| && AllHold(fields, Filled(changes, CurrentValues()))
      modifies db`heaps, db`uses, db.st
      ensures !ok ==> db.AtLimit()
      ensures db.GrewBy(ReplacePages(fields, old(Filled(changes, CurrentValues()))), StringCount(fields))
      ensures ok ==> Valid() && Ahead() == old(Ahead()) && old(Current()) in old(db.Tuples())
      ensures ok ==> old(db.Tuples()[Current()]) == Tuple(table, Stored(old(CurrentValues())))
      ensures ok ==> db.Tuples() == old(db.Tuples())[old(Current()) := Tuple(table, Stored(Filled(changes, old(CurrentValues()))))]
      ensures ok ==> old(Current()) in db.Tuples() && TakesNew(changes, old(CurrentValues()), db.Tuples()[old(Current())].values)
      ensures ok ==> db.st.tablesNumber >= old(db.st.tablesNumber)
    {
      hide Storage.OnBytes, AllListed, Inv, NoMoving, Transits, Consistent, NoLeaks, Pending, Behind, CursorOk, RowAt, CellAt,
           Client, TakesNew, AllHold, ReadFields, Stored, AllKept, RowReplaced, AgreeAhead, Passing, Filled, Contents;
      ghost var v, c, i := db.st.V(), At(), position;
      ghost var tabs, n, heaps, uses := db.st.tabs, db.st.tablesNumber, db.heaps, db.uses;
      ConsistentNames(db.Db(), tabs, n, db.schemes, heaps, uses, None, 0);
      RowPage(v, table, pagePointer, rowPointer - 1);
      RowIsCell(v, table, Current());
      if pagePointer == 0 {
        assert false;
      }
      ReadsNow(v, tabs, n, db.schemes, heaps, uses, Current());
      FilledTakes(changes, CurrentValues());
      var values := Fill(changes, CurrentValues());
      ghost var m, row;
      ok, m, row := db.Replace(table, fields, Current(), values);
      if ok {
        ReplacedAlike(v, m, db.st.V(), tabs, db.st.tabs, n, db.st.tablesNumber, db.schemes, heaps, db.heaps, uses, db.uses,
                      table, c, row, Tuple(table, Stored(values)), cond);
        ReplacementGoesOn(v, m, db.st.V(), table, c, i, row, Passing(v.pages, fields, cond), Now());
      }
    }

    /** Takes the current value where the update has none. */
    method Fill(changes: seq<Option<Value>>, current: seq<Value>) returns (row: seq<Value>)
      requires |changes| == |current|
      ensures row == Filled(changes, current)
    {
      row := [];
      for i := 0 to |changes|
        invariant |row| == i && forall j :: 0 <= j < i ==> row[j] == Filled(changes, current)[j]
      {
        row := row + [if changes[i].None? then current[i] else changes[i].value];
      }
    }
  }

  lemma ReplacedAlike(v: View, m: View, w: View, tv: map<nat, Tab>, tw: map<nat, Tab>, nv: nat, nw: nat, schemes: map<nat, Fields>,
                      hv: set<nat>, hw: set<nat>, uv: map<Key, Use>, uw: map<Key, Use>, t: nat, c: Cursor, row: Row, x: Tuple, cond: Condition)
    requires Inv(v, 0) && Inv(m, 0) && AllKept(v, m, schemes.Keys) && t in schemes && t != FREE_PAGES && c.row > 0
    requires RowReplaced(m, w, t, c.page, c.row - 1, row)
    requires Client(Contents(w), schemes) == Client(Contents(v), schemes)[Key(c.page, c.row - 1) := x]
    requires Consistent(Contents(v), tv, nv, schemes, hv, uv, None, 0) && Consistent(Contents(w), tw, nw, schemes, hw, uw, None, 0)
    ensures AgreeAhead(w, t, c, Passing(v.pages, schemes[t], cond), Passing(w.pages, schemes[t], cond)) && TableKept(v, m, t)
  {
    hide Storage.OnBytes, AllListed, Inv, Consistent, RowAt, CellAt, Contents, Client, Passing, RowReplaced, TableKept;
    ReplacedGood(m, w, t, c.page, c.row - 1, row);
    OtherRowsAlike(v, m, w, tv, tw, nv, nw, schemes, hv, hw, uv, uw, t, Key(c.page, c.row - 1), cond);
  }

  lemma ReadsNow(v: View, tabs: map<nat, Tab>, n: nat, schemes: map<nat, Fields>, heaps: set<nat>, uses: map<Key, Use>, k: Key)
    requires Consistent(Contents(v), tabs, n, schemes, heaps, uses, None, 0)
    requires k in Contents(v) && Contents(v)[k].table in schemes
    ensures var c := Contents(v)[k];
      k in Client(Contents(v), schemes) &&
      Client(Contents(v), schemes)[k] == Tuple(c.table, Stored(ReadFields(v.pages, schemes[c.table], c.row)))
  {
    hide Consistent, CellAt, Stored, ReadFields, ReadRow;
    ReadFieldsExact(v, tabs, n, schemes, heaps, uses, k);
  }

  lemma InClient(db: Db, schemes: map<nat, Fields>, k: Key)
    requires k in db && db[k].table in schemes
    ensures k in Client(db, schemes) && Client(db, schemes)[k].table == db[k].table
  {
  }

  lemma RemovedAlike(v: View, m: View, w: View, tv: map<nat, Tab>, tw: map<nat, Tab>, nv: nat, nw: nat, schemes: map<nat, Fields>,
                     heaps: set<nat>, uses: map<Key, Use>, t: nat, k: Key, i: nat, cond: Condition)
    requires Inv(v, 0) && Inv(m, 0) && AllKept(v, m, schemes.Keys) && t in schemes && t != FREE_PAGES
    requires RowRemoved(m, w, t, k.page, k.row, i)
    requires Client(Contents(w), schemes) == Client(Contents(v), schemes) - {k}
    requires Consistent(Contents(v), tv, nv, schemes, heaps, uses, None, 0) && Consistent(Contents(w), tw, nw, schemes, heaps, uses, None, 0)
    ensures AgreeAll(w, t, Passing(v.pages, schemes[t], cond), Passing(w.pages, schemes[t], cond)) && TableKept(v, m, t)
  {
    hide Storage.OnBytes, AllListed, Inv, Consistent, RowAt, CellAt, Contents, Client, Passing, RowRemoved, TableKept;
    RemovedGood(m, w, t, k.page, k.row, i);
    OtherRowsAlike(v, m, w, tv, tw, nv, nw, schemes, heaps, heaps, uses, uses, t, k, cond);
  }
}
