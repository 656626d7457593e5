/** Walks over two tables: the join, and a cursor inside the scope of another cursor. */
module Nesting {
  import opened Common
  import opened Bytes
  import opened PageRows
  import opened StorageModel
  import opened StorageFrames
  import opened CursorModel
  import opened TableContents
  import opened StorageEngine
  import opened TableMap
  import opened RowFormat
  import opened StringStore
  import opened Comparison
  import opened Consistency
  import opened Databases
  import opened RowsIterators
  import opened ClientLoops

  /** From the values of an outer row to the condition on inner rows. */
  type Match = seq<Value> -> Condition

  datatype Pair = Pair(outer: Key, inner: Key)

  ghost function Pairs(k: Key, s: seq<Key>): (r: seq<Pair>)
    ensures |r| == |s|
  {
    seq(|s|, i requires 0 <= i < |s| => Pair(k, s[i]))
  }

  /** The values of the row at a place. */
  ghost function ValuesAt(v: View, fields: Fields, k: Key): seq<Value> {
    if k.page in v.pages && k.row < |v.pages[k.page].slots| && v.pages[k.page].slots[k.row].Some?
    then ReadFields(v.pages, fields, v.pages[k.page].slots[k.row].value)
    else []
  }

  /** For every outer row, in order, the inner rows that match it, in order. */
  ghost function Nested(v: View, fields: Fields, outer: seq<Key>, t: nat, inner: Fields, match': Match): seq<Pair>
    requires ListId(t, false) in v.lists && ListId(t, true) in v.lists
  {
    if outer == [] then []
    else Pairs(outer[0], TableHits(v, t, Passing(v.pages, inner, match'(ValuesAt(v, fields, outer[0])))))
         + Nested(v, fields, outer[1..], t, inner, match')
  }

  /** The values are equal to `equals_filter` of a column of type `t`. */
  predicate EqualValues(t: FieldType, x: Value, y: Value) {
    Comparable(t, x) && Comparable(t, y) && Test(Equals, t, x, y)
  }

  /** The condition of a join on column `i` of the first and column `j`, of type `t`, of the second table. */
  function EqualColumns(i: nat, j: nat, t: FieldType): Match {
    (outer: seq<Value>) => (inner: seq<Value>) => i < |outer| && j < |inner| && EqualValues(t, inner[j], outer[i])
  }

  /** A condition on the combined row. */
  function Combined(cond: Condition): Match {
    (outer: seq<Value>) => (inner: seq<Value>) => cond(outer + inner)
  }

  lemma PairsStep(k: Key, l: Key, s: seq<Key>)
    ensures Pairs(k, [l] + s) == [Pair(k, l)] + Pairs(k, s)
  {
  }

  lemma NestedStep(v: View, fields: Fields, k: Key, rest: seq<Key>, t: nat, inner: Fields, match': Match)
    requires ListId(t, false) in v.lists && ListId(t, true) in v.lists
    ensures Nested(v, fields, [k] + rest, t, inner, match') ==
      Pairs(k, TableHits(v, t, Passing(v.pages, inner, match'(ValuesAt(v, fields, k))))) + Nested(v, fields, rest, t, inner, match')
  {
    assert ([k] + rest)[1..] == rest;
  }

  lemma NestedNone(v: View, fields: Fields, t: nat, inner: Fields, match': Match)
    requires ListId(t, false) in v.lists && ListId(t, true) in v.lists
    ensures Nested(v, fields, [], t, inner, match') == []
  {
  }

  /**
   * Two cursors over two tables, the inner one going through its table anew for every row of the
   * outer one. A join takes a new inner cursor each time (`renew`); an inner cursor in the scope of
   * another is set back to its start.
   */
  class PairWalk {
    const db: Database
    const outer: RowsIterator
    var inner: RowsIterator
    const match': Match
    const renew: bool

    ghost predicate Valid()
      reads this, outer, inner, db, db.st
    {
      && outer != inner && outer.db == db && inner.db == db
      && outer.HasCurrent() && inner.Valid() && inner.cond == match'(outer.CurrentValues())
      && ListId(inner.table, false) in db.st.lists && ListId(inner.table, true) in db.st.lists && inner.table in db.st.tabs
    }

    /** The pairs of the outer rows still to come. */
    ghost function Rest(): seq<Pair>
      requires Valid()
      reads this, outer, inner, db, db.st
    {
      Nested(db.st.V(), outer.fields, outer.Ahead(), inner.table, inner.fields, match')
    }

    /** The pairs still to come. */
    ghost function Left(): seq<Pair>
      requires Valid()
      reads this, outer, inner, db, db.st
    {
      Pairs(outer.Current(), inner.Ahead()) + Rest()
    }

    /** The inner cursor takes page 0 for a page of its table, and the file is too large for that. */
    ghost predicate AtHeader()
      reads this, inner, db, db.st
    {
      inner.pagePointer == 0 && !inner.onFullList && db.st.pagesNumber >= 0x1_0000
    }

    /** The inner cursor will take page 0 for a page when it starts again. */
    ghost predicate StartsAtHeader()
      reads this, inner, db, db.st
    {
      NoRoom(db.st, inner.table) && db.st.pagesNumber >= 0x1_0000
    }

    /** The next step takes page 0 for a page, now or once the inner cursor has started again. */
    ghost predicate Astray()
      requires Valid()
      reads this, outer, inner, db, db.st
    {
      AtHeader() || (StartsAtHeader() && inner.Ahead() == [] && outer.Ahead() != [])
    }

    /** `first` is a cursor of the outer table that has found a row. */
    constructor (first: RowsIterator, t: nat, fields: Fields, m: Match, again: bool)
      requires first.HasCurrent() && t in first.db.schemes && first.db.schemes[t] == fields
      ensures Valid() && db == first.db && outer == first && fresh(inner) && match' == m && renew == again
      ensures inner.table == t && inner.fields == fields && AtHeader() == StartsAtHeader()
      ensures Left() == Nested(db.st.V(), first.fields, [first.Current()] + first.Ahead(), t, fields, m)
    {
      hide Storage.OnBytes, Inv, NoMoving, Transits, Consistent, NoLeaks, Pending, Behind, CursorOk, RowAt,
           TableHits, Passing, ReadFields, Database.Valid;
      db, outer, match', renew := first.db, first, m, again;
      inner := new RowsIterator(first.db, t, fields, m(first.CurrentValues()));
      new;
      NestedStep(db.st.V(), first.fields, first.Current(), first.Ahead(), t, fields, m);
      CurrentThere(first);
    }

    /** The next inner row for the outer row in hand. */
    method NextInner() returns (res: IterResult)
      requires Valid()
      modifies inner
      ensures res == Strayed <==> old(AtHeader())
      ensures res == SearchEnd ==> old(inner.Ahead()) == []
      ensures res != Strayed ==> Valid() && outer.Ahead() == old(outer.Ahead())
      ensures res == RowFound ==> inner.HasCurrent() && old(Left()) == [Pair(outer.Current(), inner.Current())] + Left()
      ensures res == RowFound ==> old(inner.Ahead()) != []
      ensures res == SearchEnd ==> old(Left()) == Rest()
    {
      hide Storage.OnBytes, Inv, NoMoving, Transits, Consistent, NoLeaks, Pending, Behind, CursorOk, RowAt,
           TableHits, Passing, ReadFields, Database.Valid, Nested, Pairs;
      ghost var k, rest := outer.Current(), Rest();
      res := inner.Next();
      if res == RowFound {
        PairsStep(k, inner.Current(), inner.Ahead());
      } else {
        NoPairs(k, rest);
      }
    }

    /** The next outer row, the inner cursor at the start of its table. */
    method NextOuter() returns (res: IterResult)
      requires Valid()
      modifies this, outer, inner
      ensures res != Strayed && (res == RowFound <==> old(outer.Ahead()) != [])
      ensures if renew && res == RowFound then fresh(inner) else inner == old(inner)
      ensures inner.table == old(inner.table) && inner.fields == old(inner.fields)
      ensures res == RowFound ==> Valid() && Left() == old(Rest()) && |outer.Ahead()| < old(|outer.Ahead()|)
      ensures res == RowFound ==> AtHeader() == StartsAtHeader()
      ensures res == SearchEnd ==> old(Rest()) == []
    {
      hide Storage.OnBytes, Inv, NoMoving, Transits, Consistent, NoLeaks, Pending, Behind, CursorOk, RowAt,
           TableHits, Passing, ReadFields, Database.Valid, Nested, Pairs;
      ghost var v := db.st.V();
      CurrentPage(outer);
      res := outer.Next();
      if res == RowFound {
        CurrentThere(outer);
        NestedStep(v, outer.fields, outer.Current(), outer.Ahead(), inner.table, inner.fields, match');
        if renew {
          inner := new RowsIterator(db, inner.table, inner.fields, match'(outer.CurrentValues()));
        } else {
          inner.Restart(match'(outer.CurrentValues()));
        }
      } else {
        NestedNone(v, outer.fields, inner.table, inner.fields, match');
      }
    }

    /** `join_next_row`, and `rows_iterator_next` for a cursor inside the scope of another. */
    method NextRow() returns (res: IterResult, row: seq<Value>)
      requires Valid()
      modifies this, outer, inner
      ensures inner == old(inner) || fresh(inner)
      ensures res == Strayed <==> old(Astray())
      ensures res == RowFound ==> Valid() && inner.HasCurrent() && row == outer.CurrentValues() + inner.CurrentValues()
      ensures inner.table == old(inner.table) && inner.fields == old(inner.fields)
      ensures res == RowFound ==> old(Left()) == [Pair(outer.Current(), inner.Current())] + Left()
      ensures res == SearchEnd ==> old(Left()) == []
    {
      hide Storage.OnBytes, Inv, NoMoving, Transits, Consistent, NoLeaks, Pending, Behind, CursorOk, RowAt,
           TableHits, Passing, ReadFields, Database.Valid, Nested, Pairs, PairWalk.Left, PairWalk.Rest,
           RowsIterator.Ahead, RowsIterator.CurrentValues, RowsIterator.Valid;
      row := [];
      ghost var astray := Astray();
      res := NextInner();
      while res == SearchEnd
        invariant inner == old(inner) || fresh(inner)
        invariant inner.table == old(inner.table) && inner.fields == old(inner.fields)
        invariant res != Strayed ==> Valid()
        invariant res == SearchEnd ==> old(Left()) == Rest()
        invariant res == RowFound ==> inner.HasCurrent() && old(Left()) == [Pair(outer.Current(), inner.Current())] + Left()
        invariant res == Strayed ==> astray
        invariant res == RowFound ==> !astray
        invariant res == SearchEnd ==> astray == (StartsAtHeader() && outer.Ahead() != [])
        decreases if res != Strayed then |outer.Ahead()| else 0
      {
        res := NextOuter();
        if res != RowFound {
          return;
        }
        res := NextInner();
      }
      if res == RowFound {
        row := outer.CurrentValues() + inner.CurrentValues();
      }
    }
  }

  /** The table has no page with room. */
  ghost predicate NoRoom(st: Storage, t: nat)
    reads st
  {
    t in st.tabs && st.tabs[t].firstFree == 0
  }

  lemma NoPairs(k: Key, rest: seq<Pair>)
    ensures Pairs(k, []) + rest == rest
  {
  }

  lemma CurrentThere(iter: RowsIterator)
    requires iter.HasCurrent()
    ensures ValuesAt(iter.db.st.V(), iter.fields, iter.Current()) == iter.CurrentValues()
  {
    hide Storage.OnBytes, Inv, NoMoving, Transits, Consistent, NoLeaks, Pending, Behind, CursorOk, ReadFields, Database.Valid;
  }

  // ---------------------------------------------------------------- whole walks

  ghost predicate Emits(all: seq<Pair>, done: seq<Pair>, x: Pair, left: seq<Pair>) {
    all == done + [x] + left
  }

  lemma FirstEmitted(x: Pair, left: seq<Pair>)
    ensures Emits([x] + left, [], x, left)
  {
    assert [] + [x] + left == [x] + left;
  }

  lemma NextEmitted(all: seq<Pair>, done: seq<Pair>, x: Pair, y: Pair, left: seq<Pair>)
    requires Emits(all, done, x, [y] + left)
    ensures Emits(all, done + [x], y, left)
  {
  }

  lemma LastEmitted(all: seq<Pair>, done: seq<Pair>, x: Pair, left: seq<Pair>)
    requires Emits(all, done, x, left)
    ensures |done| < |all| && (left == [] ==> done + [x] == all)
  {
  }

  /** The pairs of an equi-join, in the order of nested loops. */
  ghost function JoinPairs(db: Database, t1: nat, fields1: Fields, t2: nat, fields2: Fields, m: Match): seq<Pair>
    requires ListId(t1, false) in db.st.lists && ListId(t1, true) in db.st.lists
    requires ListId(t2, false) in db.st.lists && ListId(t2, true) in db.st.lists
    reads db.st
  {
    Nested(db.st.V(), fields1, KeysMet(db, t1, fields1, AnyRow), t2, fields2, m)
  }

  predicate AnyRow(s: seq<Value>) {
    true
  }

  /** The combined rows of pairs. */
  ghost predicate RowsOf(v: View, fields1: Fields, fields2: Fields, pairs: seq<Pair>, rows: seq<seq<Value>>) {
    && |rows| == |pairs|
    && forall n :: 0 <= n < |pairs| ==> rows[n] == ValuesAt(v, fields1, pairs[n].outer) + ValuesAt(v, fields2, pairs[n].inner)
  }

  lemma OneMoreRow(v: View, fields1: Fields, fields2: Fields, pairs: seq<Pair>, rows: seq<seq<Value>>, x: Pair, row: seq<Value>)
    requires RowsOf(v, fields1, fields2, pairs, rows)
    requires row == ValuesAt(v, fields1, x.outer) + ValuesAt(v, fields2, x.inner)
    ensures RowsOf(v, fields1, fields2, pairs + [x], rows + [row])
  {
    hide ValuesAt;
  }

  /** The search goes on until it ends. */
  method WalkRest(walk: PairWalk) returns (res: IterResult, pairs: seq<Pair>, rows: seq<seq<Value>>)
    requires walk.Valid() && walk.AtHeader() == walk.StartsAtHeader()
    modifies walk, walk.outer, walk.inner
    ensures res == Strayed <==> old(walk.StartsAtHeader())
    ensures res != Strayed ==> res == SearchEnd && pairs == old(walk.Left())
    ensures RowsOf(walk.db.st.V(), walk.outer.fields, old(walk.inner).fields, pairs, rows)
  {
    hide Storage.OnBytes, Inv, NoMoving, Transits, Consistent, NoLeaks, Pending, Behind, CursorOk, RowAt, TableHits,
         Passing, ReadFields, ValuesAt, Database.Valid, Nested, Pairs, PairWalk.Left, PairWalk.Rest,
         RowsIterator.Ahead, RowsIterator.CurrentValues, Emits, RowsOf;
    ghost var all, v, fields1, fields2, lost := walk.Left(), walk.db.st.V(), walk.outer.fields, walk.inner.fields, walk.StartsAtHeader();
    pairs, rows := [], [];
    NoRowsYet(v, fields1, fields2);
    var row;
    res, row := walk.NextRow();
    if res == RowFound {
      FirstEmitted(Pair(walk.outer.Current(), walk.inner.Current()), walk.Left());
    }
    while res == RowFound
      invariant walk.inner == old(walk.inner) || fresh(walk.inner)
      invariant walk.inner.fields == fields2 && walk.inner.table == old(walk.inner).table
      invariant RowsOf(v, fields1, fields2, pairs, rows) && |pairs| <= |all|
      invariant res == RowFound ==> walk.Valid() && walk.inner.HasCurrent()
      invariant res == RowFound ==> row == walk.outer.CurrentValues() + walk.inner.CurrentValues()
      invariant res == RowFound ==> Emits(all, pairs, Pair(walk.outer.Current(), walk.inner.Current()), walk.Left())
      invariant res == SearchEnd ==> pairs == all
      invariant res == Strayed <==> lost
      decreases |all| - |pairs|
    {
      var pair := Pair(walk.outer.Current(), walk.inner.Current());
      ghost var done := pairs;
      LastEmitted(all, done, pair, walk.Left());
      CurrentThere(walk.outer);
      CurrentThere(walk.inner);
      CurrentPage(walk.inner);
      OneMoreRow(v, fields1, fields2, pairs, rows, pair, row);
      pairs, rows := pairs + [pair], rows + [row];
      res, row := walk.NextRow();
      if res == RowFound {
        NextEmitted(all, done, pair, Pair(walk.outer.Current(), walk.inner.Current()), walk.Left());
      }
    }
  }

  // ---------------------------------------------------------------- joins

  datatype JoinResult = Joined | JoinStrayed | JoinCrashed

  /** Values of the first column have what a comparison by the type of the second reads. */
  predicate Joinable(f: SchemeItem, g: SchemeItem) {
    && (Textual(f.ftype) <==> Textual(g.ftype))
    && (!Textual(g.ftype) ==> f.maxSz == g.maxSz == TypeSize(g.ftype))
  }

  /**
   * `join_tables` on two columns, and `join_next_row` until the end. With an empty first table the
   * value to look for is a null pointer, which the first row of the second table is compared with.
   */
  method JoinTables(db: Database, t1: nat, fields1: Fields, i: nat, t2: nat, fields2: Fields, j: nat)
    returns (res: JoinResult, pairs: seq<Pair>, rows: seq<seq<Value>>)
    requires db.Valid() && t1 in db.schemes && db.schemes[t1] == fields1 && t2 in db.schemes && db.schemes[t2] == fields2
    requires i < |fields1| && j < |fields2| && Joinable(fields1[i], fields2[j])
    ensures ListId(t1, false) in db.st.lists && ListId(t1, true) in db.st.lists
    ensures ListId(t2, false) in db.st.lists && ListId(t2, true) in db.st.lists
    ensures res == JoinStrayed <==> db.st.pagesNumber >= 0x1_0000 && (NoRoom(db.st, t1) || NoRoom(db.st, t2))
    ensures res == JoinCrashed <==>
      db.st.pagesNumber < 0x1_0000 && KeysMet(db, t1, fields1, AnyRow) == [] && KeysMet(db, t2, fields2, AnyRow) != []
    ensures res == Joined ==> RowsOf(db.st.V(), fields1, fields2, pairs, rows)
    ensures res == Joined ==> pairs == JoinPairs(db, t1, fields1, t2, fields2, EqualColumns(i, j, fields2[j].ftype))
  {
    hide Storage.OnBytes, Inv, NoMoving, Transits, Consistent, NoLeaks, Pending, Behind, CursorOk, RowAt, TableHits,
         Passing, ReadFields, RowsOf, Database.Valid, Nested, Pairs, PairWalk.Rest, PairWalk.Left,
         RowsIterator.CurrentValues, EqualColumns;
    pairs, rows := [], [];
    NoRowsYet(db.st.V(), fields1, fields2);
    HitsAreTuples(db, t2, fields2, AnyRow);
    ghost var m := EqualColumns(i, j, fields2[j].ftype);
    HeadHasRow(db, t1, fields1);
    var iter := new RowsIterator(db, t1, fields1, AnyRow);
    var found := iter.Next();
    match found {
      case Strayed =>
        res := JoinStrayed;
      case RowFound =>
        var walk := new PairWalk(iter, t2, fields2, EqualColumns(i, j, fields2[j].ftype), true);
        found, pairs, rows := WalkRest(walk);
        res := if found == Strayed then JoinStrayed else Joined;
      case SearchEnd =>
        HeadHasRow(db, t2, fields2);
        NestedNone(db.st.V(), fields1, t2, fields2, m);
        var second := new RowsIterator(db, t2, fields2, AnyRow);
        found := second.Next();
        if found == SearchEnd {
          found := iter.Next();
        }
        res := if found == Strayed then JoinStrayed else if found == RowFound then JoinCrashed else Joined;
    }
  }

  /** A page with room has a row, so a table that has one is not empty. */
  lemma HeadHasRow(db: Database, t: nat, fields: Fields)
    requires db.Valid() && t in db.schemes && db.schemes[t] == fields
    ensures t in db.st.tabs && ListId(t, false) in db.st.lists && ListId(t, true) in db.st.lists
    ensures KeysMet(db, t, fields, AnyRow) == [] ==> NoRoom(db.st, t)
  {
    hide Storage.OnBytes, NoMoving, Transits, Consistent, NoLeaks, Database.Tuples, Inv, TableHits, Geometry, Lists,
         Occupancy, Records, Tiling, RowAt;
    var v, f := db.st.V(), Passing(db.st.pages, fields, AnyRow);
    ConsistentNames(db.Db(), db.st.tabs, db.st.tablesNumber, db.schemes, db.heaps, db.uses, None, 0);
    InvParts(v, 0);
    TableHitsExact(v, t, f);
    if v.tabs[t].firstFree != 0 {
      var p := v.tabs[t].firstFree;
      var r := SomeRow(v, t);
      AllPass(v.pages, fields, RowAt(v, t, p, r).value);
      assert Key(p, r) in TableHits(v, t, f);
    }
  }

  lemma AllPass(pages: map<nat, Page>, fields: Fields, row: Row)
    ensures Passing(pages, fields, AnyRow)(row)
  {
    assert AnyRow(ReadFields(pages, fields, row));
  }

  lemma SomeRow(v: View, t: nat) returns (r: nat)
    requires Inv(v, 0) && t in v.tabs && v.tabs[t].firstFree != 0
    ensures RowAt(v, t, v.tabs[t].firstFree, r).Some?
  {
    hide TabOk, PageOk, Fits, Records, Tiling;
    var id := ListId(t, false);
    assert id in v.lists && Chain(v.pages, v.lists[id], Head(v.tabs, id));
    var p := v.lists[id][0];
    assert p in v.lists[id] && v.owner[p] == InList(id) && PageOccupancy(v.pages[p], false);
    r :| 0 <= r < |v.pages[p].slots| && v.pages[p].slots[r].Some?;
  }

  /** A cursor over table 2, with a condition on the combined row, in the scope of a cursor over table 1. */
  method SelectNested(db: Database, t1: nat, fields1: Fields, cond1: Condition, t2: nat, fields2: Fields, cond2: Condition)
    returns (res: IterResult, pairs: seq<Pair>, rows: seq<seq<Value>>)
    requires db.Valid() && t1 in db.schemes && db.schemes[t1] == fields1 && t2 in db.schemes && db.schemes[t2] == fields2
    ensures ListId(t1, false) in db.st.lists && ListId(t1, true) in db.st.lists
    ensures ListId(t2, false) in db.st.lists && ListId(t2, true) in db.st.lists
    ensures res == Strayed <==>
      db.st.pagesNumber >= 0x1_0000 && (NoRoom(db.st, t1) || (KeysMet(db, t1, fields1, cond1) != [] && NoRoom(db.st, t2)))
    ensures res != Strayed ==> res == SearchEnd && RowsOf(db.st.V(), fields1, fields2, pairs, rows)
    ensures res != Strayed ==> pairs == Nested(db.st.V(), fields1, KeysMet(db, t1, fields1, cond1), t2, fields2, Combined(cond2))
  {
    hide Storage.OnBytes, Inv, NoMoving, Transits, Consistent, NoLeaks, Pending, Behind, CursorOk, RowAt, TableHits,
         Passing, ReadFields, RowsOf, Database.Valid, Nested, Pairs, PairWalk.Rest, PairWalk.Left,
         RowsIterator.CurrentValues, Combined;
    pairs, rows := [], [];
    HitsAreTuples(db, t2, fields2, AnyRow);
    NoRowsYet(db.st.V(), fields1, fields2);
    var iter := new RowsIterator(db, t1, fields1, cond1);
    res := iter.Next();
    if res == RowFound {
      var walk := new PairWalk(iter, t2, fields2, Combined(cond2), false);
      res, pairs, rows := WalkRest(walk);
    } else {
      NestedNone(db.st.V(), fields1, t2, fields2, Combined(cond2));
    }
  }

  lemma NoRowsYet(v: View, fields1: Fields, fields2: Fields)
    ensures RowsOf(v, fields1, fields2, [], [])
  {
  }

  lemma {:induction false} NestedMembers(v: View, fields: Fields, outer: seq<Key>, t: nat, inner: Fields, m: Match, a: Key, b: Key)
    requires ListId(t, false) in v.lists && ListId(t, true) in v.lists
    ensures Pair(a, b) in Nested(v, fields, outer, t, inner, m) <==>
      a in outer && b in TableHits(v, t, Passing(v.pages, inner, m(ValuesAt(v, fields, a))))
  {
    hide TableHits, Passing, ValuesAt;
    if outer != [] {
      var k := outer[0];
      NestedMembers(v, fields, outer[1..], t, inner, m, a, b);
      PairsMembers(k, TableHits(v, t, Passing(v.pages, inner, m(ValuesAt(v, fields, k)))), a, b);
      assert a in outer <==> a == k || a in outer[1..];
    }
  }

  lemma PairsMembers(k: Key, s: seq<Key>, a: Key, b: Key)
    ensures Pair(a, b) in Pairs(k, s) <==> a == k && b in s
  {
    if a == k && b in s {
      var i :| 0 <= i < |s| && s[i] == b;
      assert Pairs(k, s)[i] == Pair(a, b);
    }
  }

  /** No pair comes twice. */
  lemma {:induction false} NestedDistinct(v: View, fields: Fields, outer: seq<Key>, t: nat, inner: Fields, m: Match)
    requires Geometry(v) && Lists(v) && t in v.tabs && Distinct(outer)
    ensures ListId(t, false) in v.lists && ListId(t, true) in v.lists
    ensures Distinct(Nested(v, fields, outer, t, inner, m))
  {
    hide TableHits, Passing, ValuesAt, Geometry, Lists;
    TableHitsExact(v, t, Passing(v.pages, inner, m([])));
    if outer != [] {
      var k := outer[0];
      var f := Passing(v.pages, inner, m(ValuesAt(v, fields, k)));
      forall i, j | 0 <= i < j < |outer[1..]| ensures outer[1..][i] != outer[1..][j] {
        assert outer[1..][i] == outer[i + 1] && outer[1..][j] == outer[j + 1];
      }
      NestedDistinct(v, fields, outer[1..], t, inner, m);
      TableHitsExact(v, t, f);
      var head, tail := Pairs(k, TableHits(v, t, f)), Nested(v, fields, outer[1..], t, inner, m);
      forall i, j | 0 <= i < j < |head| ensures head[i] != head[j] {
        assert head[i].inner == TableHits(v, t, f)[i] && head[j].inner == TableHits(v, t, f)[j];
      }
      forall x | x in head ensures x !in tail {
        NestedMembers(v, fields, outer[1..], t, inner, m, x.outer, x.inner);
        PairsMembers(k, TableHits(v, t, f), x.outer, x.inner);
        assert x == Pair(x.outer, x.inner);
      }
      DistinctAppend(head, tail);
    }
  }

  /** Column `i` of that tuple can be compared. */
  lemma ColumnCompares(db: Database, t: nat, fields: Fields, k: Key, i: nat, g: FieldType)
    requires db.Valid() && t in db.schemes && db.schemes[t] == fields && k in db.Tuples() && db.Tuples()[k].table == t
    requires i < |fields| && (Textual(fields[i].ftype) <==> Textual(g)) && (!Textual(g) ==> fields[i].maxSz == TypeSize(g))
    ensures i < |db.Tuples()[k].values| && Comparable(g, Plain(db.Tuples()[k].values)[i])
  {
    hide Storage.OnBytes, Inv, NoMoving, Transits, Consistent, NoLeaks, RowAt, CellAt, ReadRow, Stored, Plain,
         HeapText, CString, RefOf, ColumnOk;
    TupleReads(db.st.V(), db.st.tabs, db.st.tablesNumber, db.schemes, db.heaps, db.uses, k);
    AnyColumn(db.Db(), db.st.tabs, db.st.tablesNumber, db.schemes, db.heaps, db.uses, k, i);
  }

  /** The same value, or for floats the same number, where a pattern that is no number counts as every number. */
  predicate SameValue(t: FieldType, x: Value, y: Value)
    requires Comparable(t, x) && Comparable(t, y)
  {
    if t == Float then
      NotANumber(U32(x.bytes)) || NotANumber(U32(y.bytes)) || FloatValue(U32(x.bytes)) == FloatValue(U32(y.bytes))
    else x == y
  }

  /** What the comparison of two columns in a join means. */
  lemma EqualValuesMean(t: FieldType, x: Value, y: Value)
    requires Comparable(t, x) && Comparable(t, y)
    ensures EqualValues(t, x, y) <==> SameValue(t, x, y)
  {
    hide Test, NotANumber, FloatValue, U32;
    if t == Float {
      FloatPredicatesMean(x, y);
    } else {
      EqualsMeans(t, x, y);
    }
  }

  /**
   * The join gives a pair exactly when both tuples are there and their columns are equal, and
   * gives it once.
   */
  lemma JoinExact(db: Database, t1: nat, fields1: Fields, i: nat, t2: nat, fields2: Fields, j: nat, g: FieldType)
    requires db.Valid() && t1 in db.schemes && db.schemes[t1] == fields1 && t2 in db.schemes && db.schemes[t2] == fields2
    requires i < |fields1| && j < |fields2|
    ensures ListId(t1, false) in db.st.lists && ListId(t1, true) in db.st.lists
    ensures ListId(t2, false) in db.st.lists && ListId(t2, true) in db.st.lists
    ensures Distinct(JoinPairs(db, t1, fields1, t2, fields2, EqualColumns(i, j, g)))
    ensures forall a: Key, b: Key :: Pair(a, b) in JoinPairs(db, t1, fields1, t2, fields2, EqualColumns(i, j, g)) <==>
      && a in db.Tuples() && db.Tuples()[a].table == t1 && i < |db.Tuples()[a].values|
      && b in db.Tuples() && db.Tuples()[b].table == t2 && j < |db.Tuples()[b].values|
      && EqualValues(g, Plain(db.Tuples()[b].values)[j], Plain(db.Tuples()[a].values)[i])
  {
    hide Storage.OnBytes, Inv, NoMoving, Transits, Consistent, NoLeaks, RowAt, CellAt, Client, ReadFields, ReadRow,
         Stored, TableHits, Plain, Geometry, Lists, Occupancy, Records, Tiling, Passes, Passing, Nested,
         Database.Valid, Database.Tuples;
    HitsAreTuples(db, t1, fields1, AnyRow);
    HitsAreTuples(db, t2, fields2, AnyRow);
    JoinDistinct(db, t1, fields1, t2, fields2, EqualColumns(i, j, g));
    forall a: Key, b: Key ensures Pair(a, b) in JoinPairs(db, t1, fields1, t2, fields2, EqualColumns(i, j, g)) <==>
      && a in db.Tuples() && db.Tuples()[a].table == t1 && i < |db.Tuples()[a].values|
      && b in db.Tuples() && db.Tuples()[b].table == t2 && j < |db.Tuples()[b].values|
      && EqualValues(g, Plain(db.Tuples()[b].values)[j], Plain(db.Tuples()[a].values)[i])
    {
      JoinPair(db, t1, fields1, i, t2, fields2, j, g, a, b);
    }
  }

  /** On columns that a join may compare, a pair of tuples is given exactly if their values are the same. */
  lemma JoinMeans(db: Database, t1: nat, fields1: Fields, i: nat, t2: nat, fields2: Fields, j: nat, a: Key, b: Key)
    requires db.Valid() && t1 in db.schemes && db.schemes[t1] == fields1 && t2 in db.schemes && db.schemes[t2] == fields2
    requires i < |fields1| && j < |fields2| && Joinable(fields1[i], fields2[j])
    requires a in db.Tuples() && db.Tuples()[a].table == t1 && b in db.Tuples() && db.Tuples()[b].table == t2
    ensures ListId(t1, false) in db.st.lists && ListId(t1, true) in db.st.lists
    ensures ListId(t2, false) in db.st.lists && ListId(t2, true) in db.st.lists
    ensures i < |db.Tuples()[a].values| && j < |db.Tuples()[b].values|
    ensures var g := fields2[j].ftype; var x, y := Plain(db.Tuples()[a].values)[i], Plain(db.Tuples()[b].values)[j];
      && Comparable(g, x) && Comparable(g, y)
      && (Pair(a, b) in JoinPairs(db, t1, fields1, t2, fields2, EqualColumns(i, j, g)) <==> SameValue(g, y, x))
  {
    hide Database.Valid, Database.Tuples, JoinPairs, KeysMet, Plain, EqualColumns, EqualValues, Comparable, SameValue, Passes;
    var g := fields2[j].ftype;
    ColumnCompares(db, t1, fields1, a, i, g);
    ColumnCompares(db, t2, fields2, b, j, g);
    HitsAreTuples(db, t1, fields1, AnyRow);
    HitsAreTuples(db, t2, fields2, AnyRow);
    JoinPair(db, t1, fields1, i, t2, fields2, j, g, a, b);
    EqualValuesMean(g, Plain(db.Tuples()[b].values)[j], Plain(db.Tuples()[a].values)[i]);
  }

  /**
   * The nested walk gives a pair exactly when the outer tuple passes its condition and the values of
   * both, one behind the other, pass the inner one.
   */
  lemma NestedExact(db: Database, t1: nat, fields1: Fields, cond1: Condition, t2: nat, fields2: Fields, cond2: Condition, a: Key, b: Key)
    requires db.Valid() && t1 in db.schemes && db.schemes[t1] == fields1 && t2 in db.schemes && db.schemes[t2] == fields2
    ensures ListId(t1, false) in db.st.lists && ListId(t1, true) in db.st.lists
    ensures ListId(t2, false) in db.st.lists && ListId(t2, true) in db.st.lists
    ensures Pair(a, b) in Nested(db.st.V(), fields1, KeysMet(db, t1, fields1, cond1), t2, fields2, Combined(cond2)) <==>
      && a in db.Tuples() && db.Tuples()[a].table == t1 && cond1(Plain(db.Tuples()[a].values))
      && b in db.Tuples() && db.Tuples()[b].table == t2 && cond2(Plain(db.Tuples()[a].values) + Plain(db.Tuples()[b].values))
  {
    hide Storage.OnBytes, Inv, NoMoving, Transits, Consistent, NoLeaks, RowAt, CellAt, Client, ReadFields, ReadRow,
         Stored, TableHits, Plain, Geometry, Lists, Occupancy, Records, Tiling, Passing, Nested, Database.Valid,
         Database.Tuples, ValuesAt;
    var v := db.st.V();
    HitsAreTuples(db, t1, fields1, cond1);
    var s := ValuesAt(v, fields1, a);
    HitsAreTuples(db, t2, fields2, Combined(cond2)(s));
    NestedMembers(v, fields1, KeysMet(db, t1, fields1, cond1), t2, fields2, Combined(cond2), a, b);
    if a in db.Tuples() && db.Tuples()[a].table == t1 {
      TupleValues(db, t1, a);
    }
  }

  lemma JoinDistinct(db: Database, t1: nat, fields1: Fields, t2: nat, fields2: Fields, m: Match)
    requires db.Valid() && t1 in db.schemes && db.schemes[t1] == fields1 && t2 in db.schemes && db.schemes[t2] == fields2
    ensures ListId(t1, false) in db.st.lists && ListId(t1, true) in db.st.lists
    ensures ListId(t2, false) in db.st.lists && ListId(t2, true) in db.st.lists
    ensures Distinct(JoinPairs(db, t1, fields1, t2, fields2, m))
  {
    hide Storage.OnBytes, NoMoving, Transits, Consistent, NoLeaks, TableHits, Passing, Nested, Inv, Geometry, Lists,
         Occupancy, Records, Tiling;
    HitsAreTuples(db, t1, fields1, AnyRow);
    ConsistentNames(db.Db(), db.st.tabs, db.st.tablesNumber, db.schemes, db.heaps, db.uses, None, 0);
    InvParts(db.st.V(), 0);
    NestedDistinct(db.st.V(), fields1, KeysMet(db, t1, fields1, AnyRow), t2, fields2, m);
  }

  lemma JoinPair(db: Database, t1: nat, fields1: Fields, i: nat, t2: nat, fields2: Fields, j: nat, g: FieldType, a: Key, b: Key)
    requires db.Valid() && t1 in db.schemes && db.schemes[t1] == fields1 && t2 in db.schemes && db.schemes[t2] == fields2
    requires ListId(t1, false) in db.st.lists && ListId(t1, true) in db.st.lists
    requires ListId(t2, false) in db.st.lists && ListId(t2, true) in db.st.lists
    ensures Pair(a, b) in JoinPairs(db, t1, fields1, t2, fields2, EqualColumns(i, j, g)) <==>
      && a in db.Tuples() && db.Tuples()[a].table == t1 && i < |db.Tuples()[a].values|
      && b in db.Tuples() && db.Tuples()[b].table == t2 && j < |db.Tuples()[b].values|
      && EqualValues(g, Plain(db.Tuples()[b].values)[j], Plain(db.Tuples()[a].values)[i])
  {
    hide Storage.OnBytes, Inv, NoMoving, Transits, Consistent, NoLeaks, RowAt, CellAt, Client, ReadFields, ReadRow,
         Stored, TableHits, Plain, Geometry, Lists, Occupancy, Records, Tiling, Passing, Nested, Database.Valid,
         Database.Tuples, ValuesAt;
    var v := db.st.V();
    HitsAreTuples(db, t1, fields1, AnyRow);
    NestedMembers(v, fields1, KeysMet(db, t1, fields1, AnyRow), t2, fields2, EqualColumns(i, j, g), a, b);
    var s := ValuesAt(v, fields1, a);
    HitsAreTuples(db, t2, fields2, EqualColumns(i, j, g)(s));
    if a in db.Tuples() && db.Tuples()[a].table == t1 {
      TupleValues(db, t1, a);
    }
  }

  lemma TupleValues(db: Database, t: nat, k: Key)
    requires db.Valid() && t in db.schemes && k in db.Tuples() && db.Tuples()[k].table == t
    ensures ValuesAt(db.st.V(), db.schemes[t], k) == Plain(db.Tuples()[k].values)
  {
    hide Storage.OnBytes, Inv, NoMoving, Transits, Consistent, NoLeaks, RowAt, CellAt, ReadFields, ReadRow, Stored, Plain;
    TupleReads(db.st.V(), db.st.tabs, db.st.tablesNumber, db.schemes, db.heaps, db.uses, k);
    CellBytes(db.st.V(), k);
  }
}
