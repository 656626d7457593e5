/** Clients that use the tables they create and the rows they insert. */
module Clients {
  import opened Bytes
  import opened CursorModel
  import opened RowFormat
  import opened StringStore
  import opened Databases
  import opened PageCosts
  import opened KeyedRows
  import opened Tables
  import opened Schemas
  import opened StorageModel
  import opened TableMap
  import opened ClientLoops
  import opened Runs

  /** Creates a table, inserts a row in it, replaces that row and removes it. */
  function RowLife(name: seq<byte>, fields: Fields, first: seq<Value>, second: seq<Value>): Client {
    (answers: seq<Answer>) =>
      if |answers| == 0 || !answers[0].NewTable? then Create(name, fields)
      else if |answers| == 1 || !answers[1].NewRow? then Insert(answers[0].table, first)
      else if |answers| == 2 then Replace(answers[0].table, answers[1].key, second)
      else Remove(answers[0].table, answers[1].key)
  }

  /** The tuples stay, and new ones are rows of the schema table. */
  ghost predicate MoreSchemeRows(was: map<Key, Tuple>, now: map<Key, Tuple>) {
    && (forall k :: k in was ==> k in now && now[k] == was[k])
    && (forall k :: k in now && k !in was ==> now[k].table == SCHEME_TABLE)
  }

  lemma WrittenAreSchemeRows(was: map<Key, Tuple>, now: map<Key, Tuple>, keys: seq<Key>, fields: Fields, id: nat)
    requires Written(was, now, keys, fields, id)
    ensures MoreSchemeRows(was, now)
  {
    hide SchemeRow, Stored;
  }

  /** What is known on the way of that client. */
  ghost predicate Lived(a: State, fields: Fields, first: seq<Value>, second: seq<Value>, path: seq<State>, answers: seq<Answer>)
    requires |path| == |answers| + 1
  {
    && (|answers| >= 1 ==>
          && answers[0].NewTable? && answers[0].table !in a.schemes && path[1].schemes == a.schemes[answers[0].table := fields]
          && MoreSchemeRows(a.tuples, path[1].tuples))
    && (|answers| >= 2 ==>
          && answers[1].NewRow? && answers[1].key !in path[1].tuples
          && path[2] == State(path[1].schemes, path[1].tuples[answers[1].key := Tuple(answers[0].table, Stored(first))]))
    && (|answers| >= 3 ==>
          path[3] == State(path[1].schemes, path[2].tuples[answers[1].key := Tuple(answers[0].table, Stored(second))]))
    && (|answers| >= 4 ==> path[4] == State(path[1].schemes, path[3].tuples - {answers[1].key}))
  }

  lemma LifeGoesOn(a: State, name: seq<byte>, fields: Fields, first: seq<Value>, second: seq<Value>, path: seq<State>, answers: seq<Answer>)
    requires From(a, RowLife(name, fields, first, second), path, answers) && |answers| <= 4
    ensures Lived(a, fields, first, second, path, answers)
  {
    hide Written, Stored, MoreSchemeRows;
    var client := RowLife(name, fields, first, second);
    if |answers| >= 1 {
      assert StepAt(client, path, answers, 0) && answers[..0] == [];
      var keys :| Created(a, fields, path[1], answers[0].table, keys);
      WrittenAreSchemeRows(a.tuples, path[1].tuples, keys, fields, answers[0].table);
    }
    if |answers| >= 2 {
      assert StepAt(client, path, answers, 1) && answers[..1] == [answers[0]];
    }
    if |answers| >= 3 {
      assert StepAt(client, path, answers, 2) && answers[..2] == [answers[0], answers[1]];
    }
    if |answers| >= 4 {
      assert StepAt(client, path, answers, 3) && answers[..3] == [answers[0], answers[1], answers[2]];
    }
  }

  /** It may run wherever the table may be created, and the rows it names are there. */
  lemma LifeAllowed(a: State, name: seq<byte>, fields: Fields, first: seq<Value>, second: seq<Value>)
    requires SCHEME_TABLE in a.schemes && Creatable(name, fields) && AllHold(fields, first) && AllHold(fields, second)
    ensures AlwaysAllowed(a, RowLife(name, fields, first, second), 4)
    ensures forall path, answers :: From(a, RowLife(name, fields, first, second), path, answers) && |answers| < 4 ==>
      Present(path[|answers|], RowLife(name, fields, first, second)(answers))
  {
    hide Path, Creatable, AllHold, Stored, Lived;
    var client := RowLife(name, fields, first, second);
    forall path, answers | From(a, client, path, answers) && |answers| < 4
      ensures Allowed(path[|answers|], client(answers)) && Present(path[|answers|], client(answers))
    {
      LifeGoesOn(a, name, fields, first, second, path, answers);
      LifeNext(a, name, fields, first, second, path, answers);
    }
  }

  lemma LifeNext(a: State, name: seq<byte>, fields: Fields, first: seq<Value>, second: seq<Value>, path: seq<State>, answers: seq<Answer>)
    requires SCHEME_TABLE in a.schemes && Creatable(name, fields) && AllHold(fields, first) && AllHold(fields, second)
    requires |path| == |answers| + 1 && |answers| < 4 && Lived(a, fields, first, second, path, answers)
    ensures Allowed(path[|answers|], RowLife(name, fields, first, second)(answers))
    ensures Present(path[|answers|], RowLife(name, fields, first, second)(answers))
  {
    hide Creatable, AllHold, Stored;
    if |answers| >= 2 {
      var k := answers[1].key;
      assert Has(path[|answers|].tuples, answers[0].table, Key(k.page, k.row));
    }
  }

  /** The bounds of its first `i` commands, added up. */
  function LifePages(fields: Fields, first: seq<Value>, second: seq<Value>, i: nat): nat
    requires |first| == |fields| && |second| == |fields|
  {
    (if i > 0 then TablePages(fields) else 0) + (if i > 1 then InsertPages(fields, first) else 0)
    + (if i > 2 then ReplacePages(fields, second) else 0) + if i > 3 then RemovePages(fields) else 0
  }

  function LifeTables(fields: Fields, i: nat): nat {
    (if i > 0 then 1 + |fields| else 0) + (if i > 1 then StringCount(fields) else 0) + if i > 2 then StringCount(fields) else 0
  }

  lemma LifeCost(a: State, name: seq<byte>, fields: Fields, first: seq<Value>, second: seq<Value>, path: seq<State>, answers: seq<Answer>)
    requires |first| == |fields| && |second| == |fields|
    requires |path| == |answers| + 1 && |answers| < 4 && Lived(a, fields, first, second, path, answers)
    ensures var c, i := RowLife(name, fields, first, second), |answers|;
      && LifePages(fields, first, second, i + 1) == LifePages(fields, first, second, i) + PagesOf(path[i], c(answers))
      && LifeTables(fields, i + 1) == LifeTables(fields, i) + TablesOf(path[i], c(answers))
  {
    hide TablePages, InsertPages, ReplacePages, RemovePages, StringCount, Stored;
  }

  lemma {:induction false} LifeCosts(a: State, name: seq<byte>, fields: Fields, first: seq<Value>, second: seq<Value>,
                                     path: seq<State>, answers: seq<Answer>)
    requires |first| == |fields| && |second| == |fields|
    requires |path| == |answers| + 1 && |answers| <= 4 && Lived(a, fields, first, second, path, answers)
    ensures PathPages(RowLife(name, fields, first, second), path, answers) == LifePages(fields, first, second, |answers|)
    ensures PathTables(RowLife(name, fields, first, second), path, answers) == LifeTables(fields, |answers|)
    decreases |answers|
  {
    hide Lived, PagesOf, TablesOf, LifePages, LifeTables;
    var i := |answers|;
    if i == 0 {
      NoPages(fields, first, second);
    } else {
      Shorter(a, fields, first, second, path, answers);
      LifeCosts(a, name, fields, first, second, path[..i], answers[..i - 1]);
      LifeCost(a, name, fields, first, second, path[..i], answers[..i - 1]);
    }
  }

  lemma NoPages(fields: Fields, first: seq<Value>, second: seq<Value>)
    requires |first| == |fields| && |second| == |fields|
    ensures LifePages(fields, first, second, 0) == LifeTables(fields, 0) == 0
  {
  }

  lemma Shorter(a: State, fields: Fields, first: seq<Value>, second: seq<Value>, path: seq<State>, answers: seq<Answer>)
    requires |path| == |answers| + 1 && 0 < |answers| <= 4 && Lived(a, fields, first, second, path, answers)
    ensures Lived(a, fields, first, second, path[..|answers|], answers[..|answers| - 1])
  {
  }

  lemma CostsGrow(fields: Fields, first: seq<Value>, second: seq<Value>, i: nat)
    requires |first| == |fields| && |second| == |fields| && i <= 4
    ensures LifePages(fields, first, second, i) <= LifePages(fields, first, second, 4) && LifeTables(fields, i) <= LifeTables(fields, 4)
  {
    hide TablePages, InsertPages, ReplacePages, RemovePages, StringCount;
  }

  /** With room for the four commands it completes, and leaves the new table without rows and all others as they were. */
  method LiveRow(db: Database, tables: map<nat, Fields>, name: seq<byte>, fields: Fields, first: seq<Value>, second: seq<Value>)
    returns (t: nat, tables': map<nat, Fields>)
    requires Ready(db, tables) && Creatable(name, fields) && AllHold(fields, first) && AllHold(fields, second)
    requires |first| == |fields| && |second| == |fields| && db.Room(LifePages(fields, first, second, 4), LifeTables(fields, 4))
    modifies db`heaps, db`schemes, db`uses, db.st
    ensures Ready(db, tables') && t !in tables && tables' == tables[t := fields]
    ensures forall k :: k in db.Tuples() ==> db.Tuples()[k].table != t
    ensures forall k :: k in old(db.Tuples()) ==> k in db.Tuples() && db.Tuples()[k] == old(db.Tuples())[k]
  {
    hide Database.Valid, Database.Tuples, SchemesBelow, SchemeFields, AllTyped, Creatable, AllHold, Path, AlwaysAllowed,
         PathPages, PathTables, LifePages, LifeTables, Lived, Accounted, Present, PagesOf, TablesOf;
    ghost var a := Now(db);
    var client := RowLife(name, fields, first, second);
    LifeAllowed(a, name, fields, first, second);
    KnownTables(db);
    var res, answers;
    ghost var path;
    res, tables', answers, path := Run(db, tables, client, 4);
    LifeGoesOn(a, name, fields, first, second, path, answers);
    LifeCosts(a, name, fields, first, second, path, answers);
    CostsGrow(fields, first, second, |answers|);
    if |answers| < 4 {
      LifeCost(a, name, fields, first, second, path, answers);
      CostsGrow(fields, first, second, |answers| + 1);
      assert false;
    }
    LifeEnds(a, fields, first, second, path, answers);
    t := answers[0].table;
  }

  lemma LifeEnds(a: State, fields: Fields, first: seq<Value>, second: seq<Value>, path: seq<State>, answers: seq<Answer>)
    requires |path| == 5 && |answers| == 4 && Lived(a, fields, first, second, path, answers)
    requires SCHEME_TABLE in a.schemes && forall k :: k in a.tuples ==> a.tuples[k].table in a.schemes
    ensures answers[0].NewTable? && answers[0].table !in a.schemes && path[4].schemes == a.schemes[answers[0].table := fields]
    ensures forall k :: k in path[4].tuples ==> path[4].tuples[k].table != answers[0].table
    ensures forall k :: k in a.tuples ==> k in path[4].tuples && path[4].tuples[k] == a.tuples[k]
  {
    hide Stored;
    assert path[4].tuples == path[1].tuples;
  }

  /** Every tuple is in a known table. */
  lemma KnownTables(db: Database)
    ensures forall k :: k in db.Tuples() ==> db.Tuples()[k].table in db.schemes
  {
    hide ReadRow, CellAt;
  }
}
