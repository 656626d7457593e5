/** All tables but the free-page table as one finite map, and the operations as changes of it. */
module TableMap {
  import opened Common
  import opened PageRows
  import opened StorageModel
  import opened StorageFrames
  import opened CursorModel

  /** A row and the table it belongs to. */
  datatype Cell = Cell(table: nat, row: Row)

  ghost function CellAt(v: View, k: Key): Option<Cell> {
    if k.page in v.pages && k.page in v.owner && v.owner[k.page].InList? && v.owner[k.page].id.tid != FREE_PAGES
       && k.row < |v.pages[k.page].slots| && v.pages[k.page].slots[k.row].Some?
    then Some(Cell(v.owner[k.page].id.tid, v.pages[k.page].slots[k.row].value))
    else None
  }

  /** The database: from (page, row) to table and row bytes. */
  ghost function Contents(v: View): (m: map<Key, Cell>)
    ensures forall k: Key :: k in m <==> CellAt(v, k).Some?
    ensures forall k: Key :: k in m ==> m[k] == CellAt(v, k).value
  {
    var keys := set p, r | p in v.pages && p in v.owner && v.owner[p].InList? && 0 <= r < |v.pages[p].slots| &&
                           v.pages[p].slots[r].Some? && v.owner[p].id.tid != FREE_PAGES :: Key(p, r);
    map k | k in keys :: CellAt(v, k).value
  }

  lemma CellIsRow(v: View, t: nat, k: Key, row: Row)
    ensures CellAt(v, k) == Some(Cell(t, row)) <==> t != FREE_PAGES && RowAt(v, t, k.page, k.row) == Some(row)
  {
  }

  /** No row has gone or changed. */
  ghost predicate AllStay(a: map<Key, Cell>, b: map<Key, Cell>) {
    forall k :: k in a ==> k in b && b[k] == a[k]
  }

  /** One changed row of one table, as seen in the map. */
  lemma OneRowChanged(v: View, w: View, t: nat, p: nat, r: nat)
    requires Inv(v, 0) && Inv(w, 0) && Untouched(v, w, t, 0) && SameRowsBut(v, w, t, p, r) && t != FREE_PAGES
    ensures forall k: Key :: k != Key(p, r) ==> CellAt(w, k) == CellAt(v, k)
  {
    hide Inv, Untouched, RowAt, CellAt;
    forall k: Key | k != Key(p, r) ensures CellAt(w, k) == CellAt(v, k) {
      if CellAt(v, k).Some? {
        var c := CellAt(v, k).value;
        CellIsRow(v, c.table, k, c.row);
        CellKept(v, w, t, p, r, k, c);
        CellIsRow(w, c.table, k, c.row);
      } else if CellAt(w, k).Some? {
        var c := CellAt(w, k).value;
        CellIsRow(w, c.table, k, c.row);
        CellKept(v, w, t, p, r, k, c);
        CellIsRow(v, c.table, k, c.row);
      }
    }
  }

  lemma CellKept(v: View, w: View, t: nat, p: nat, r: nat, k: Key, c: Cell)
    requires Inv(v, 0) && Inv(w, 0) && Untouched(v, w, t, 0) && SameRowsBut(v, w, t, p, r) && k != Key(p, r)
    requires c.table != FREE_PAGES
    ensures RowAt(v, c.table, k.page, k.row) == RowAt(w, c.table, k.page, k.row)
  {
    hide Inv, Untouched, RowAt;
    InvParts(v, 0);
    InvParts(w, 0);
    if c.table == t {
      assert (k.page, k.row) != (p, r);
    } else {
      UntouchedRows(v, w, t, c.table);
    }
  }

  /** `table_insert_row` adds exactly one row, at a place that was free. */
  lemma InsertedContents(v: View, w: View, t: nat, p: nat, r: nat, row: Row)
    requires Inv(v, 0) && t != FREE_PAGES && RowInserted(v, w, t, p, r, row)
    ensures Key(p, r) !in Contents(v)
    ensures Contents(w) == Contents(v)[Key(p, r) := Cell(t, row)]
  {
    hide Inv, Untouched, SameRowsBut, Transits, NoMoving, NowRecorded, CellAt, RowAt;
    OneRowChanged(v, w, t, p, r);
    CellIsRow(w, t, Key(p, r), row);
    PlaceWasFree(v, w, t, p, r);
  }

  /** The place of the new row was free in every table. */
  lemma PlaceWasFree(v: View, w: View, t: nat, p: nat, r: nat)
    requires Inv(v, 0) && Inv(w, 0) && Untouched(v, w, t, 0) && t != FREE_PAGES
    requires RowAt(v, t, p, r) == None && RowAt(w, t, p, r).Some?
    ensures CellAt(v, Key(p, r)) == None
  {
    hide Inv, Untouched;
    InvParts(v, 0);
    InvParts(w, 0);
    var c := if CellAt(v, Key(p, r)).Some? then CellAt(v, Key(p, r)).value else Cell(t, []);
    if c.table != t && c.table != FREE_PAGES {
      UntouchedRows(v, w, t, c.table);
    }
    assert c.table != t && c.table != FREE_PAGES ==> RowAt(w, c.table, p, r) == RowAt(v, c.table, p, r);
  }

  /** `table_remove_row` deletes exactly that row. */
  lemma RemovedContents(v: View, w: View, t: nat, p: nat, r: nat, k: nat)
    requires Inv(v, 0) && t != FREE_PAGES && RowRemoved(v, w, t, p, r, k)
    ensures Key(p, r) in Contents(v) && Contents(v)[Key(p, r)].table == t
    ensures Contents(w) == Contents(v) - {Key(p, r)}
  {
    hide Inv, Untouched, SameRowsBut, Transits, NoMoving, ListsAfterRemoval, CellAt, RowAt;
    OneRowChanged(v, w, t, p, r);
    CellIsRow(v, t, Key(p, r), RowAt(v, t, p, r).value);
    PlaceIsFree(v, w, t, p, r);
  }

  lemma PlaceIsFree(v: View, w: View, t: nat, p: nat, r: nat)
    requires Inv(v, 0) && Inv(w, 0) && Untouched(v, w, t, 0) && t != FREE_PAGES
    requires RowAt(v, t, p, r).Some? && RowAt(w, t, p, r) == None
    ensures CellAt(w, Key(p, r)) == None
  {
    hide Inv, Untouched;
    InvParts(v, 0);
    InvParts(w, 0);
    var c := if CellAt(w, Key(p, r)).Some? then CellAt(w, Key(p, r)).value else Cell(t, []);
    if c.table != t && c.table != FREE_PAGES {
      UntouchedRows(v, w, t, c.table);
    }
    assert c.table != t && c.table != FREE_PAGES ==> RowAt(w, c.table, p, r) == RowAt(v, c.table, p, r);
  }

  /** `table_replace_row` overwrites exactly that row. */
  lemma ReplacedContents(v: View, w: View, t: nat, p: nat, r: nat, row: Row)
    requires Inv(v, 0) && t != FREE_PAGES && RowReplaced(v, w, t, p, r, row)
    ensures Key(p, r) in Contents(v) && Contents(v)[Key(p, r)].table == t
    ensures Contents(w) == Contents(v)[Key(p, r) := Cell(t, row)]
  {
    hide Inv, Untouched, SameRowsBut, Transits, NoMoving, CellAt, RowAt;
    OneRowChanged(v, w, t, p, r);
    CellIsRow(v, t, Key(p, r), RowAt(v, t, p, r).value);
    CellIsRow(w, t, Key(p, r), row);
  }
}
