/** Rows removed and replaced by their keys, whether or not there is a row at the key. */
module KeyedRows {
  import opened PageRows
  import opened StorageModel
  import opened StorageFrames
  import opened CursorModel
  import opened StorageEngine
  import opened TableFrames
  import opened TableMap
  import opened RowFormat
  import opened StringStore
  import opened Consistency
  import opened Databases
  import opened PageCosts

  /** `Stopped` is a limit of the format, `Panicked` a panic or a null pointer on the way. */
  datatype Outcome = Done | Stopped | Panicked

  /** The table has a row at the key. */
  ghost predicate Has(tuples: map<Key, Tuple>, t: nat, k: Key) {
    k in tuples && tuples[k].table == t
  }

  /** The key is a place in a page of the table. No page of a table is without a row. */
  ghost predicate Within(tuples: map<Key, Tuple>, t: nat, k: Key) {
    exists r: nat :: Has(tuples, t, Key(k.page, r))
  }

  /** The slots of the page tell whether there is a row. */
  lemma SlotsTell(db: Database, t: nat, k: Key)
    requires db.Valid() && t in db.schemes && Within(db.Tuples(), t, k)
    ensures k.page in db.st.pages
    ensures var s := db.st.pages[k.page].slots; Has(db.Tuples(), t, k) <==> k.row < |s| && s[k.row].Some?
    ensures Has(db.Tuples(), t, k) ==> k in db.Db() && db.Db()[k].table == t
  {
    hide Storage.OnBytes, Inv, NoMoving, Transits, Consistent, NoLeaks, ReadRow;
    var r: nat :| Has(db.Tuples(), t, Key(k.page, r));
    assert CellAt(db.st.V(), Key(k.page, r)).Some?;
    assert CellAt(db.st.V(), k).Some? <==> k in db.Db();
  }

  /** Whether a row of the table has strings. */
  method HasStrings(fields: Fields) returns (b: bool)
    ensures b <==> exists i :: 0 <= i < |fields| && fields[i].ftype == Str
  {
    for i := 0 to |fields|
      invariant forall j :: 0 <= j < i ==> fields[j].ftype != Str
    {
      if fields[i].ftype == Str {
        return true;
      }
    }
    return false;
  }

  /**
   * `table_remove_row` at any place in a page of the table. With no row there, the reference of the
   * first string column is read through a null pointer, and for a table without string columns the
   * page operation reports an error, on which the program panics.
   */
  method RemoveAt(db: Database, t: nat, fields: Fields, k: Key) returns (res: Outcome)
    requires db.Valid() && t in db.schemes && db.schemes[t] == fields && Within(db.Tuples(), t, k)
    modifies db.st
    ensures res == Panicked <==> !Has(old(db.Tuples()), t, k)
    ensures res == Stopped ==> db.st.pagesNumber >= 0x1_0000
    ensures db.GrewBy(RemovePages(fields), 0)
    ensures old(db.PageRoom(RemovePages(fields))) ==> res != Stopped
    ensures res == Done ==> db.Valid() && db.Tuples() == old(db.Tuples()) - {k} && db.st.tablesNumber == old(db.st.tablesNumber)
    ensures res == Panicked ==> unchanged(db.st)
  {
    hide Storage.OnBytes, Database.Valid, Database.Tuples, Inv, AllKept, RowRemoved, Strings;
    SlotsTell(db, t, k);
    var slots := db.st.pages[k.page].slots;
    var strings := HasStrings(fields);
    if strings {
      if k.row >= |slots| || slots[k.row].None? {
        return Panicked;
      }
    } else {
      var (_, status) := RemoveRow(slots, k.row);
      if status == RemoveOutOfBound || status == RemoveBitmapError {
        return Panicked;
      }
    }
    ghost var m, i;
    var ok;
    ok, m, i := db.Remove(t, fields, k);
    res := if ok then Done else Stopped;
  }

  /** `table_replace_row` at any place in a page of the table. */
  method ReplaceAt(db: Database, t: nat, fields: Fields, k: Key, values: seq<Value>) returns (res: Outcome)
    requires db.Valid() && t in db.schemes && db.schemes[t] == fields && AllHold(fields, values) && Within(db.Tuples(), t, k)
    modifies db`heaps, db`uses, db.st
    ensures res == Panicked <==> !Has(old(db.Tuples()), t, k)
    ensures res == Stopped ==> db.AtLimit()
    ensures db.GrewBy(ReplacePages(fields, values), StringCount(fields))
    ensures old(db.Room(ReplacePages(fields, values), StringCount(fields))) ==> res != Stopped
    ensures res == Done ==> db.Valid() && db.Tuples() == old(db.Tuples())[k := Tuple(t, Stored(values))]
    ensures res == Done ==> db.st.tablesNumber >= old(db.st.tablesNumber)
    ensures res == Panicked ==> unchanged(db.st)
  {
    hide Storage.OnBytes, Database.Valid, Database.Tuples, Inv, AllKept, RowReplaced, AllHold, Stored;
    SlotsTell(db, t, k);
    var slots := db.st.pages[k.page].slots;
    var strings := HasStrings(fields);
    if strings {
      if k.row >= |slots| || slots[k.row].None? {
        return Panicked;
      }
    } else {
      var (_, status) := ReplaceRow(slots, k.row, []);
      if status == WriteOutOfBound || status == WriteNotEmpty {
        return Panicked;
      }
    }
    ghost var m, row;
    var ok;
    ok, m, row := db.Replace(t, fields, k, values);
    res := if ok then Done else Stopped;
  }
}
