/** The loops that clients write with a cursor: read, delete and update all rows that pass a condition. */
module ClientLoops {
  import opened Common
  import opened StorageModel
  import opened StorageFrames
  import opened CursorModel
  import opened CursorSteps
  import opened TableContents
  import opened StorageEngine
  import opened TableMap
  import opened RowFormat
  import opened StringStore
  import opened Consistency
  import opened Databases
  import opened PageCosts
  import opened RowsIterators

  /** The values of a row all of whose columns read. */
  ghost function Plain(s: seq<Option<Value>>): (r: seq<Value>)
    ensures |r| == |s|
  {
    seq(|s|, i requires 0 <= i < |s| => if s[i].Some? then s[i].value else Raw([]))
  }

  lemma PlainStored(s: seq<Value>)
    ensures Plain(Stored(s)) == s
  {
    assert |Plain(Stored(s))| == |s|;
  }

  ghost predicate Passes(x: Tuple, t: nat, cond: Condition) {
    x.table == t && cond(Plain(x.values))
  }

  /** The keys that a cursor over the table meets, in its order. */
  ghost function KeysMet(db: Database, t: nat, fields: Fields, cond: Condition): seq<Key>
    requires ListId(t, false) in db.st.lists && ListId(t, true) in db.st.lists
    reads db.st
  {
    TableHits(db.st.V(), t, Passing(db.st.pages, fields, cond))
  }

  /** A cursor meets every tuple of the table that passes, each once, and nothing else. */
  lemma HitsAreTuples(db: Database, t: nat, fields: Fields, cond: Condition)
    requires db.Valid() && t in db.schemes && db.schemes[t] == fields
    ensures ListId(t, false) in db.st.lists && ListId(t, true) in db.st.lists
    ensures Distinct(KeysMet(db, t, fields, cond))
    ensures forall k: Key :: k in KeysMet(db, t, fields, cond) <==> k in db.Tuples() && Passes(db.Tuples()[k], t, cond)
  {
    hide Storage.OnBytes, Inv, NoMoving, Transits, Consistent, NoLeaks, RowAt, CellAt, Client, ReadFields, ReadRow,
         Stored, TableHits, Plain, Geometry, Lists, Occupancy, Records, Tiling;
    var v := db.st.V();
    var f := Passing(db.st.pages, fields, cond);
    ConsistentNames(db.Db(), db.st.tabs, db.st.tablesNumber, db.schemes, db.heaps, db.uses, None, 0);
    InvParts(v, 0);
    TableHitsExact(v, t, f);
    forall k: Key ensures k in TableHits(v, t, f) <==> k in db.Tuples() && Passes(db.Tuples()[k], t, cond) {
      assert k == Key(k.page, k.row);
      HitIsTuple(v, db.st.tabs, db.st.tablesNumber, db.schemes, db.heaps, db.uses, t, k, cond);
    }
  }

  lemma HitIsTuple(v: View, tabs: map<nat, Tab>, n: nat, schemes: map<nat, Fields>, heaps: set<nat>, uses: map<Key, Use>,
                   t: nat, k: Key, cond: Condition)
    requires Consistent(Contents(v), tabs, n, schemes, heaps, uses, None, 0) && t in schemes && t != FREE_PAGES
    ensures RowAt(v, t, k.page, k.row).Some? && Passing(v.pages, schemes[t], cond)(RowAt(v, t, k.page, k.row).value) <==>
      k in Client(Contents(v), schemes) && Passes(Client(Contents(v), schemes)[k], t, cond)
  {
    hide Consistent, CellAt, Stored, ReadFields, ReadRow, Contents, Plain, RowAt;
    var db := Contents(v);
    if RowAt(v, t, k.page, k.row).Some? {
      RowIsCell(v, t, k);
      TupleReads(v, tabs, n, schemes, heaps, uses, k);
    } else if k in db && db[k].table == t {
      CellIsRow(v, t, k, db[k].row);
      CellThere(v, k);
    }
  }

  lemma CellThere(v: View, k: Key)
    requires k in Contents(v)
    ensures CellAt(v, k) == Some(Contents(v)[k])
  {
    hide CellAt;
  }

  lemma TupleReads(v: View, tabs: map<nat, Tab>, n: nat, schemes: map<nat, Fields>, heaps: set<nat>, uses: map<Key, Use>, k: Key)
    requires Consistent(Contents(v), tabs, n, schemes, heaps, uses, None, 0)
    requires k in Contents(v) && Contents(v)[k].table in schemes
    ensures var c := Contents(v)[k];
      && k in Client(Contents(v), schemes) && Client(Contents(v), schemes)[k].table == c.table
      && Plain(Client(Contents(v), schemes)[k].values) == ReadFields(v.pages, schemes[c.table], c.row)
  {
    hide Consistent, CellAt, Stored, ReadFields, ReadRow, Contents, Plain, Client;
    var c := Contents(v)[k];
    ReadsNow(v, tabs, n, schemes, heaps, uses, k);
    PlainStored(ReadFields(v.pages, schemes[c.table], c.row));
  }

  /**
   * Reads all passing rows with their values, each exactly once, first those of pages with
   * room, then those of full pages. With no page with room the search starts at page 0, the
   * file header, and that works exactly while the file has fewer than 65536 pages.
   */
  method Select(db: Database, t: nat, fields: Fields, cond: Condition) returns (res: IterResult, found: seq<Key>, rows: seq<seq<Value>>)
    requires db.Valid() && t in db.schemes && db.schemes[t] == fields
    ensures t in db.st.tabs && ListId(t, false) in db.st.lists && ListId(t, true) in db.st.lists
    ensures res == Strayed <==> db.st.tabs[t].firstFree == 0 && db.st.pagesNumber >= 0x1_0000
    ensures res != Strayed ==> res == SearchEnd && found == KeysMet(db, t, fields, cond) && |rows| == |found|
    ensures forall i :: 0 <= i < |rows| && i < |found| ==> found[i] in db.Tuples() && db.Tuples()[found[i]] == Tuple(t, Stored(rows[i]))
  {
    hide Storage.OnBytes, Inv, NoMoving, Transits, Consistent, NoLeaks, Pending, Behind, CursorOk, RowAt, TableHits,
         Passing, Client, Stored, ReadFields, CellAt, Stands, Database.Valid, Database.Tuples,
         RowsIterator.CurrentValues;
    var iter := new RowsIterator(db, t, fields, cond);
    found, rows := [], [];
    res := iter.Next();
    if res == RowFound {
      WalkStarts(iter.Current(), iter.Ahead());
    }
    while res == RowFound
      invariant res == RowFound ==> iter.HasCurrent()
      invariant res == RowFound ==> Stands(KeysMet(db, t, fields, cond), found, iter.Current(), iter.Ahead())
      invariant res == SearchEnd ==> found == KeysMet(db, t, fields, cond)
      invariant res == Strayed <==> db.st.tabs[t].firstFree == 0 && db.st.pagesNumber >= 0x1_0000
      invariant |rows| == |found|
      invariant forall i :: 0 <= i < |rows| ==> found[i] in db.Tuples() && db.Tuples()[found[i]] == Tuple(t, Stored(rows[i]))
      invariant |found| <= |KeysMet(db, t, fields, cond)|
      decreases |KeysMet(db, t, fields, cond)| - |found|
    {
      OneLeft(KeysMet(db, t, fields, cond), found, iter.Current(), iter.Ahead());
      CurrentPage(iter);
      ValuesRead(iter);
      ghost var done := found;
      found := found + [iter.Current()];
      rows := rows + [iter.CurrentValues()];
      ghost var key, ahead := iter.Current(), iter.Ahead();
      res := iter.Next();
      if res == RowFound {
        WalkGoesOn(KeysMet(db, t, fields, cond), done, key, iter.Current(), iter.Ahead());
      } else if res == SearchEnd {
        WalkEnds(KeysMet(db, t, fields, cond), done, key);
      }
    }
  }

  /** From the values of a row to its new values; columns without a new value keep theirs. */
  type Change = seq<Value> -> seq<Option<Value>>

  /** By how many pages the rewriting of a row makes the file grow at most. */
  ghost function RewritePages(was: map<Key, Tuple>, fields: Fields, g: Change): Key -> nat {
    (k: Key) => if k in was then ChangePages(Plain(was[k].values), fields, g) else 0
  }

  ghost function ChangePages(s: seq<Value>, fields: Fields, g: Change): nat {
    if |g(s)| == |s| == |fields| then ReplacePages(fields, Filled(g(s), s)) else 0
  }

  /** The rows of the table that pass. */
  ghost function PassingKeys(tuples: map<Key, Tuple>, t: nat, cond: Condition): set<Key> {
    set k | k in tuples && Passes(tuples[k], t, cond)
  }

  /** By how many pages and tables the rewriting of all passing rows makes the file grow at most. */
  ghost function UpdatePages(tuples: map<Key, Tuple>, t: nat, fields: Fields, cond: Condition, g: Change): nat {
    Sum(PassingKeys(tuples, t, cond), RewritePages(tuples, fields, g))
  }

  ghost function UpdateTables(tuples: map<Key, Tuple>, t: nat, fields: Fields, cond: Condition): nat {
    Times(|PassingKeys(tuples, t, cond)|, StringCount(fields))
  }

  /** And the deletion of all passing rows. */
  ghost function DeletePages(db: Database, t: nat, fields: Fields, cond: Condition): nat
    requires ListId(t, false) in db.st.lists && ListId(t, true) in db.st.lists
    reads db.st
  {
    Times(|KeysMet(db, t, fields, cond)|, RemovePages(fields))
  }

  /**
   * Deletes all passing rows while iterating. The rows deleted are those that passed at the
   * start, each once and in the order of the walk; all other rows of all tables stay, and
   * read as before.
   */
  method Delete(db: Database, t: nat, fields: Fields, cond: Condition) returns (ok: bool, deleted: seq<Key>)
    requires db.Valid() && t in db.schemes && db.schemes[t] == fields
    modifies db.st
    ensures ListId(t, false) in old(db.st.lists) && ListId(t, true) in old(db.st.lists)
    ensures !ok ==> db.st.pagesNumber >= 0x1_0000
    ensures db.GrewBy(old(DeletePages(db, t, fields, cond)), 0)
    ensures old(db.PageRoom(DeletePages(db, t, fields, cond))) ==> ok
    ensures ok ==> db.Valid() && deleted == old(KeysMet(db, t, fields, cond))
    ensures ok ==> db.Tuples() == old(db.Tuples()) - set k | k in deleted
    ensures ok ==> db.st.tablesNumber == old(db.st.tablesNumber)
  {
    hide Storage.OnBytes, Inv, NoMoving, Transits, Consistent, NoLeaks, Pending, Behind, CursorOk, RowAt, TableHits,
         Passing, Client, Stands, Database.Valid, Database.Tuples, Passes, Times, RemovePages;
    var iter := new RowsIterator(db, t, fields, cond);
    ghost var hits, was := KeysMet(db, t, fields, cond), db.Tuples();
    ok, deleted := true, [];
    ghost var c := RemovePages(fields);
    NoTime(|hits|, c);
    var res := iter.Next();
    if res == RowFound {
      WalkStarts(iter.Current(), iter.Ahead());
    }
    while res == RowFound
      invariant iter.db == db && iter.table == t && iter.fields == fields && fresh(iter) && ok
      invariant db.GrewBy(Times(|deleted|, c), 0) && Times(|deleted|, c) <= Times(|hits|, c)
      invariant db.Valid() && db.Tuples() == was - (set k | k in deleted) && db.st.tablesNumber == old(db.st.tablesNumber)
      invariant res == RowFound ==> iter.HasCurrent() && iter.OnlyCurrentBehind()
      invariant res == RowFound ==> Stands(hits, deleted, iter.Current(), iter.Ahead())
      invariant res == SearchEnd ==> deleted == hits
      invariant res == Strayed ==> db.st.pagesNumber >= 0x1_0000
      invariant |deleted| <= |hits|
      decreases |hits| - |deleted|
    {
      OneLeft(hits, deleted, iter.Current(), iter.Ahead());
      OneMoreTime(|deleted|, |hits|, c);
      var key := iter.Current();
      ok := iter.RemoveCurrent();
      if !ok {
        return;
      }
      OneMore(was, deleted, key);
      res := iter.Next();
      if res == RowFound {
        WalkGoesOn(hits, deleted, key, iter.Current(), iter.Ahead());
      } else if res == SearchEnd {
        WalkEnds(hits, deleted, key);
      }
      deleted := deleted + [key];
    }
    ok := res == SearchEnd;
  }

  /** Every column holds a value it has room for. */
  ghost predicate WellTyped(tuples: map<Key, Tuple>, t: nat, fields: Fields) {
    forall k :: k in tuples && tuples[k].table == t ==> AllHold(fields, Plain(tuples[k].values))
  }

  /** Every tuple is in a known table and holds values that its columns have room for. */
  ghost predicate AllTyped(tuples: map<Key, Tuple>, schemes: map<nat, Fields>) {
    forall k :: k in tuples ==> tuples[k].table in schemes && AllHold(schemes[tuples[k].table], Plain(tuples[k].values))
  }

  /** New values that a column has room for, whatever fits in now. */
  ghost predicate Keeps(fields: Fields, g: Change) {
    forall s: seq<Value> :: |s| == |fields| ==> |g(s)| == |fields| && (AllHold(fields, s) ==> AllHold(fields, Filled(g(s), s)))
  }

  ghost function Updated(x: Tuple, g: Change): Tuple {
    var s := Plain(x.values);
    if |g(s)| == |s| then Tuple(x.table, Stored(Filled(g(s), s))) else x
  }

  ghost function UpdatedAll(was: map<Key, Tuple>, keys: seq<Key>, g: Change): map<Key, Tuple> {
    map k | k in was :: if k in keys then Updated(was[k], g) else was[k]
  }

  /** The rewritten tuples stay in their table, and each has the new values, and the old ones where there is none. */
  ghost predicate AllTakeNew(was: map<Key, Tuple>, now: map<Key, Tuple>, keys: seq<Key>, g: Change) {
    forall k :: k in keys ==> TakesNewAt(was, now, k, g)
  }

  ghost predicate TakesNewAt(was: map<Key, Tuple>, now: map<Key, Tuple>, k: Key, g: Change) {
    && k in was && k in now && now[k].table == was[k].table
    && TakesNew(g(Plain(was[k].values)), Plain(was[k].values), now[k].values)
  }

  lemma UpdatedTakes(was: map<Key, Tuple>, keys: seq<Key>, t: nat, cond: Condition, fields: Fields, g: Change)
    requires WellTyped(was, t, fields) && Keeps(fields, g) && (forall k :: k in keys ==> k in was && Passes(was[k], t, cond))
    ensures AllTakeNew(was, UpdatedAll(was, keys, g), keys, g)
  {
    hide TakesNew, Filled, Stored, Plain, Holds;
    forall k | k in keys ensures TakesNewAt(was, UpdatedAll(was, keys, g), k, g) {
      var s := Plain(was[k].values);
      FilledTakes(g(s), s);
    }
  }

  /**
   * Rewrites all passing rows while iterating. An updated row is not met again even if the
   * update changes whether it passes: the rows rewritten are exactly those that passed at
   * the start, each once, and from the values they had then.
   */
  method Update(db: Database, t: nat, fields: Fields, cond: Condition, g: Change)
    returns (ok: bool, updated: seq<Key>)
    requires db.Valid() && t in db.schemes && db.schemes[t] == fields && WellTyped(db.Tuples(), t, fields) && Keeps(fields, g)
    modifies db`heaps, db`uses, db.st
    ensures ListId(t, false) in old(db.st.lists) && ListId(t, true) in old(db.st.lists)
    ensures !ok ==> db.AtLimit()
    ensures db.GrewBy(old(UpdatePages(db.Tuples(), t, fields, cond, g)), old(UpdateTables(db.Tuples(), t, fields, cond)))
    ensures old(db.Room(UpdatePages(db.Tuples(), t, fields, cond, g), UpdateTables(db.Tuples(), t, fields, cond))) ==> ok
    ensures ok ==> db.Valid() && updated == old(KeysMet(db, t, fields, cond))
    ensures ok ==> db.Tuples() == UpdatedAll(old(db.Tuples()), updated, g) && WellTyped(db.Tuples(), t, fields)
    ensures ok ==> AllTakeNew(old(db.Tuples()), db.Tuples(), updated, g)
    ensures ok ==> db.st.tablesNumber >= old(db.st.tablesNumber)
  {
    hide Storage.OnBytes, Inv, NoMoving, Transits, Consistent, NoLeaks, Pending, Behind, CursorOk, RowAt, TableHits,
         Passing, Client, Stands, Database.Valid, Database.Tuples, Passes, Keeps, WellTyped, UpdatedAll, Stored,
         AllTakeNew, Filled, AllHold, ReadFields, Plain, Times, Spent, RewritePages, UpdatePages, ChangePages, ReplacePages, StringCount,
         PassingKeys;
    HitsAreTuples(db, t, fields, cond);
    var iter := new RowsIterator(db, t, fields, cond);
    ghost var hits, was := KeysMet(db, t, fields, cond), db.Tuples();
    ghost var spent: nat, limit, c := 0, UpdatePages(was, t, fields, cond, g), StringCount(fields);
    MetArePassing(hits, was, t, cond);
    NothingSpent(hits, was, t, fields, cond, g);
    NoTime(|hits|, c);
    ok, updated := true, [];
    NoneUpdated(was, g);
    var res := iter.Next();
    if res == RowFound {
      WalkStarts(iter.Current(), iter.Ahead());
    }
    while res == RowFound
      invariant iter.db == db && iter.table == t && iter.fields == fields && fresh(iter) && ok
      invariant t in db.schemes && db.schemes[t] == fields && db.st.tablesNumber >= old(db.st.tablesNumber)
      invariant db.Valid() && db.Tuples() == UpdatedAll(was, updated, g) && WellTyped(db.Tuples(), t, fields)
      invariant res == RowFound ==> iter.HasCurrent() && Stands(hits, updated, iter.Current(), iter.Ahead())
      invariant res == SearchEnd ==> updated == hits
      invariant Spent(hits, updated, RewritePages(was, fields, g), spent, limit)
      invariant db.GrewBy(spent, Times(|updated|, c)) && spent <= limit && Times(|updated|, c) <= Times(|hits|, c)
      invariant res == Strayed ==> db.st.pagesNumber >= 0x1_0000
      invariant |updated| <= |hits|
      decreases |hits| - |updated|
    {
      OneLeft(hits, updated, iter.Current(), iter.Ahead());
      OneMoreTime(|updated|, |hits|, c);
      var key;
      ok, key, spent := UpdateHere(iter, g, was, hits, updated, spent, limit);
      if !ok {
        return;
      }
      res := iter.Next();
      if res == RowFound {
        WalkGoesOn(hits, updated, key, iter.Current(), iter.Ahead());
      } else if res == SearchEnd {
        WalkEnds(hits, updated, key);
      }
      updated := updated + [key];
    }
    ok := res == SearchEnd;
    UpdatedTakes(was, hits, t, cond, fields, g);
  }

  /** Rewrites the current row; `done` are the rows rewritten before. */
  method UpdateHere(iter: RowsIterator, g: Change, ghost was: map<Key, Tuple>, ghost hits: seq<Key>, ghost done: seq<Key>,
                    ghost spent: nat, ghost limit: nat) returns (ok: bool, key: Key, ghost more: nat)
    requires iter.HasCurrent() && WellTyped(iter.db.Tuples(), iter.table, iter.fields) && Keeps(iter.fields, g) && Distinct(hits)
    requires iter.db.Tuples() == UpdatedAll(was, done, g) && Stands(hits, done, iter.Current(), iter.Ahead())
    requires Spent(hits, done, RewritePages(was, iter.fields, g), spent, limit)
    modifies iter.db`heaps, iter.db`uses, iter.db.st
    ensures key == old(iter.Current()) && (!ok ==> iter.db.AtLimit())
    ensures spent <= more <= limit && iter.db.GrewBy(more - spent, StringCount(iter.fields))
    ensures ok ==> iter.Valid() && iter.Ahead() == old(iter.Ahead()) && iter.db.st.tablesNumber >= old(iter.db.st.tablesNumber)
    ensures ok ==> iter.db.Tuples() == UpdatedAll(was, done + [key], g) && WellTyped(iter.db.Tuples(), iter.table, iter.fields)
    ensures ok ==> Spent(hits, done + [key], RewritePages(was, iter.fields, g), more, limit)
  {
    hide Database.Valid, RowsIterator.Valid, Database.Tuples, RowsIterator.Ahead, RowsIterator.CurrentValues,
         Passes, Keeps, WellTyped, UpdatedAll, Stored, Filled, AllHold, ReadFields, Plain, Spent, RewritePages, ChangePages,
         ReplacePages, StringCount, Stands;
    key := iter.Current();
    var values := iter.CurrentValues();
    ghost var before := iter.db.Tuples();
    ValuesRead(iter);
    MayUpdate(before, iter.table, iter.fields, key, values, g);
    StandsNew(hits, done, key, iter.Ahead());
    OneRewritten(was, before, hits, done, key, iter.table, iter.fields, values, g, spent, limit);
    more := spent + ChangePages(values, iter.fields, g);
    ok := iter.UpdateCurrent(g(values));
    if ok {
      OneMoreUpdated(was, before, iter.db.Tuples(), done, key, iter.table, iter.fields, values, g);
    }
  }

  /** A current row is never in page 0. */
  lemma CurrentPage(iter: RowsIterator)
    requires iter.HasCurrent()
    ensures iter.pagePointer != 0
  {
    hide Storage.OnBytes, NoMoving, Transits, Consistent, NoLeaks, Pending, Behind, RowAt, Inv, CursorOk;
    RowPage(iter.db.st.V(), iter.table, iter.pagePointer, iter.rowPointer - 1);
  }

  /** The values in hand are those of the current tuple. */
  lemma ValuesRead(iter: RowsIterator)
    requires iter.HasCurrent()
    ensures iter.Current() in iter.db.Tuples()
    ensures iter.db.Tuples()[iter.Current()] == Tuple(iter.table, Stored(iter.CurrentValues()))
    ensures |iter.CurrentValues()| == |iter.fields|
  {
    hide Storage.OnBytes, Inv, NoMoving, Transits, Consistent, NoLeaks, Pending, Behind, CursorOk, RowAt, Client,
         Stored, ReadFields, CellAt;
    var db := iter.db;
    ConsistentNames(db.Db(), db.st.tabs, db.st.tablesNumber, db.schemes, db.heaps, db.uses, None, 0);
    RowPage(db.st.V(), iter.table, iter.pagePointer, iter.rowPointer - 1);
    RowIsCell(db.st.V(), iter.table, iter.Current());
    ReadsNow(db.st.V(), db.st.tabs, db.st.tablesNumber, db.schemes, db.heaps, db.uses, iter.Current());
  }

  lemma MayUpdate(tuples: map<Key, Tuple>, t: nat, fields: Fields, k: Key, values: seq<Value>, g: Change)
    requires k in tuples && tuples[k] == Tuple(t, Stored(values)) && WellTyped(tuples, t, fields) && Keeps(fields, g)
    requires |values| == |fields|
    ensures |g(values)| == |fields| && AllHold(fields, Filled(g(values), values))
  {
    hide AllHold, Filled, Stored, Plain;
    PlainStored(values);
  }

  ghost function Members(s: seq<Key>): set<Key> {
    set k | k in s
  }

  lemma MetArePassing(met: seq<Key>, tuples: map<Key, Tuple>, t: nat, cond: Condition)
    requires Distinct(met) && forall k: Key :: k in met <==> k in tuples && Passes(tuples[k], t, cond)
    ensures Members(met) == PassingKeys(tuples, t, cond) && |met| == |PassingKeys(tuples, t, cond)|
  {
    hide Passes;
    DistinctSize(met);
  }

  /** A list of different keys is as long as the set of them. */
  lemma {:induction false} DistinctSize(s: seq<Key>)
    requires Distinct(s)
    ensures |Members(s)| == |s|
  {
    if s != [] {
      var rest := s[1..];
      forall i, j | 0 <= i < j < |rest| ensures rest[i] != rest[j] {
        assert rest[i] == s[i + 1] && rest[j] == s[j + 1];
      }
      DistinctSize(rest);
      assert s[0] !in rest by {
        assert forall i :: 0 <= i < |rest| ==> rest[i] == s[i + 1];
      }
      assert Members(s) == {s[0]} + Members(rest);
    }
  }

  /** `spent` is the weight of the rows done, `limit` that of all. */
  ghost predicate Spent(all: seq<Key>, done: seq<Key>, w: Key -> nat, spent: nat, limit: nat) {
    Members(done) <= Members(all) && spent == Sum(Members(done), w) && limit == Sum(Members(all), w)
  }

  lemma NothingSpent(hits: seq<Key>, was: map<Key, Tuple>, t: nat, fields: Fields, cond: Condition, g: Change)
    requires Members(hits) == PassingKeys(was, t, cond)
    ensures Spent(hits, [], RewritePages(was, fields, g), 0, UpdatePages(was, t, fields, cond, g))
  {
    hide Passes;
    assert Members([]) == {};
  }

  /** What the rewriting of one more row may cost, from the values that it had at the start. */
  lemma OneRewritten(was: map<Key, Tuple>, before: map<Key, Tuple>, hits: seq<Key>, updated: seq<Key>, k: Key, t: nat, fields: Fields,
                     values: seq<Value>, g: Change, spent: nat, limit: nat)
    requires before == UpdatedAll(was, updated, g) && k !in updated && k in before && before[k] == Tuple(t, Stored(values))
    requires |g(values)| == |values| == |fields| && k in hits && Spent(hits, updated, RewritePages(was, fields, g), spent, limit)
    ensures ChangePages(values, fields, g) == ReplacePages(fields, Filled(g(values), values))
    ensures Spent(hits, updated + [k], RewritePages(was, fields, g), spent + ChangePages(values, fields, g), limit)
    ensures spent + ChangePages(values, fields, g) <= limit
  {
    hide Plain, Stored, Filled, ReplacePages;
    PlainStored(values);
    var w := RewritePages(was, fields, g);
    var more := Members(updated + [k]);
    assert more - {k} == Members(updated);
    SumSplit(more, w, k);
    SumPart(more, Members(hits), w);
  }

  lemma NoneUpdated(was: map<Key, Tuple>, g: Change)
    ensures UpdatedAll(was, [], g) == was
  {
  }

  lemma StandsNew(all: seq<Key>, done: seq<Key>, k: Key, ahead: seq<Key>)
    requires Stands(all, done, k, ahead) && Distinct(all)
    ensures k !in done && k in all
  {
    assert all[|done|] == k;
    assert forall i :: 0 <= i < |done| ==> all[i] == done[i];
  }

  lemma OneMoreUpdated(was: map<Key, Tuple>, before: map<Key, Tuple>, after: map<Key, Tuple>, updated: seq<Key>, k: Key,
                       t: nat, fields: Fields, values: seq<Value>, g: Change)
    requires before == UpdatedAll(was, updated, g) && k !in updated && k in before && WellTyped(before, t, fields)
    requires before[k] == Tuple(t, Stored(values)) && |g(values)| == |values|
    requires after == before[k := Tuple(t, Stored(Filled(g(values), values)))] && AllHold(fields, Filled(g(values), values))
    ensures after == UpdatedAll(was, updated + [k], g) && WellTyped(after, t, fields)
  {
    hide AllHold, Filled, Stored, Plain;
    PlainStored(values);
    PlainStored(Filled(g(values), values));
    assert forall l :: l in updated + [k] <==> l in updated || l == k;
  }

  /** The walk `all` is at `k`: `done` is behind, `ahead` is ahead. */
  ghost predicate Stands(all: seq<Key>, done: seq<Key>, k: Key, ahead: seq<Key>) {
    all == done + [k] + ahead
  }

  lemma WalkStarts(k: Key, ahead: seq<Key>)
    ensures Stands([k] + ahead, [], k, ahead)
  {
    assert [] + [k] + ahead == [k] + ahead;
  }

  lemma OneLeft(all: seq<Key>, done: seq<Key>, k: Key, ahead: seq<Key>)
    requires Stands(all, done, k, ahead)
    ensures |done| < |all|
  {
  }

  lemma WalkGoesOn(all: seq<Key>, done: seq<Key>, k: Key, l: Key, ahead: seq<Key>)
    requires Stands(all, done, k, [l] + ahead)
    ensures Stands(all, done + [k], l, ahead)
  {
  }

  lemma WalkEnds(all: seq<Key>, done: seq<Key>, k: Key)
    requires Stands(all, done, k, [])
    ensures done + [k] == all
  {
  }

  lemma OneMore(was: map<Key, Tuple>, deleted: seq<Key>, k: Key)
    ensures was - (set l | l in deleted) - {k} == was - set l | l in deleted + [k]
  {
  }
}
