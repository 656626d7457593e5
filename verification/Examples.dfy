/** The example program: a table is created, filled, searched, updated row by row and emptied. */
module Examples {
  import opened Common
  import opened Bytes
  import opened CursorModel
  import opened RowFormat
  import opened StringStore
  import opened Databases
  import opened PageCosts
  import opened RowsIterators
  import opened ClientLoops
  import opened Tables
  import opened Catalog
  import opened Schemas
  import opened StorageModel
  import opened Nesting
  import Comparison
  import opened PageLayout
  import opened Runs
  import opened Clients

  /** What the program is about: a table, its rows, the filter of the search, and the update of a row. */
  datatype Crud = Crud(name: seq<byte>, fields: Fields, rows: seq<seq<Value>>, cond: Condition, change: Change)

  ghost predicate Sensible(x: Crud) {
    && Creatable(x.name, x.fields) && Keeps(x.fields, x.change)
    && forall i :: 0 <= i < |x.rows| ==> AllHold(x.fields, x.rows[i])
  }

  function Program(x: Crud): Client {
    (answers: seq<Answer>) =>
      if |answers| == 0 || !answers[0].NewTable? then Create(x.name, x.fields)
      else if |answers| <= |x.rows| then Insert(answers[0].table, x.rows[|answers| - 1])
      else if |answers| == |x.rows| + 1 then SelectAll(answers[0].table, x.cond)
      else if |answers| == |x.rows| + 2 then UpdateAll(answers[0].table, AnyRow, x.change)
      else DeleteAll(answers[0].table, AnyRow)
  }

  /** The keys that the first inserts answered. */
  ghost predicate RowKeys(answers: seq<Answer>, keys: seq<Key>) {
    |keys| < |answers| && forall j :: 0 <= j < |keys| ==> answers[j + 1] == NewRow(keys[j])
  }

  /** The tuples with the first rows inserted. */
  ghost function Grown(base: map<Key, Tuple>, t: nat, keys: seq<Key>, rows: seq<seq<Value>>): map<Key, Tuple>
    requires |keys| <= |rows|
  {
    if keys == [] then base
    else
      var i := |keys| - 1;
      Grown(base, t, keys[..i], rows)[keys[i] := Tuple(t, Stored(rows[i]))]
  }

  /** Those are new tuples of a new table. */
  ghost predicate Fresh(base: map<Key, Tuple>, t: nat, keys: seq<Key>) {
    Distinct(keys) && (forall k :: k in keys ==> k !in base) && forall k :: k in base ==> base[k].table != t
  }

  lemma {:induction false} GrownIs(base: map<Key, Tuple>, t: nat, keys: seq<Key>, rows: seq<seq<Value>>)
    requires |keys| <= |rows| && Fresh(base, t, keys)
    ensures forall k :: k in Grown(base, t, keys, rows) <==> k in base || k in keys
    ensures forall k :: k in base ==> Grown(base, t, keys, rows)[k] == base[k]
    ensures forall j :: 0 <= j < |keys| ==> Grown(base, t, keys, rows)[keys[j]] == Tuple(t, Stored(rows[j]))
  {
    hide Stored;
    if keys != [] {
      var i := |keys| - 1;
      assert keys == keys[..i] + [keys[i]];
      GrownIs(base, t, keys[..i], rows);
    }
  }

  /** What is known when the program has got so many answers: the table, its rows, and nothing else changed. */
  ghost predicate Known(a: State, x: Crud, base: map<Key, Tuple>, keys: seq<Key>, s: State, answers: seq<Answer>) {
    && answers != [] && answers[0].NewTable? && answers[0].table !in a.schemes && MoreSchemeRows(a.tuples, base)
    && s.schemes == a.schemes[answers[0].table := x.fields]
    && |keys| == Inserted(|x.rows|, |answers|) && RowKeys(answers, keys) && Fresh(base, answers[0].table, keys)
    && s.tuples == Tuples(x, base, keys, answers)
  }

  ghost function Tuples(x: Crud, base: map<Key, Tuple>, keys: seq<Key>, answers: seq<Answer>): map<Key, Tuple>
    requires |keys| <= |x.rows| && answers != [] && answers[0].NewTable?
  {
    var t, n := answers[0].table, |x.rows|;
    if |answers| <= n + 2 then Grown(base, t, keys, x.rows)
    else if |answers| == n + 3 then Rewritten(Grown(base, t, keys, x.rows), t, AnyRow, x.change)
    else base
  }

  /** How many of the `n` rows are inserted when there are `i` answers. */
  function Inserted(n: nat, i: nat): (m: nat)
    ensures m <= n && (i > 0 ==> m < i)
  {
    if i == 0 then 0 else if i - 1 < n then i - 1 else n
  }

  /** The client tables before: the schema table among them, and no tuple elsewhere. */
  ghost predicate Tidy(a: State) {
    SCHEME_TABLE in a.schemes && forall k :: k in a.tuples ==> a.tuples[k].table in a.schemes
  }

  lemma NoKeys(answers: seq<Answer>, base: map<Key, Tuple>, t: nat)
    requires answers != [] && forall k :: k in base ==> base[k].table != t
    ensures RowKeys(answers, []) && Fresh(base, t, [])
  {
  }

  lemma FirstStep(a: State, x: Crud, r: Answer, s: State)
    requires Tidy(a) && Step(a, Program(x)([]), r, s)
    ensures Known(a, x, s.tuples, [], s, [r])
  {
    hide Written;
    var keys :| Created(a, x.fields, s, r.table, keys);
    WrittenAreSchemeRows(a.tuples, s.tuples, keys, x.fields, r.table);
    NoKeys([r], s.tuples, r.table);
  }

  lemma InsertStep(a: State, x: Crud, base: map<Key, Tuple>, keys: seq<Key>, s: State, answers: seq<Answer>, r: Answer, s': State)
    requires Known(a, x, base, keys, s, answers) && |answers| <= |x.rows| && Step(s, Program(x)(answers), r, s')
    ensures r.NewRow? && Known(a, x, base, keys + [r.key], s', answers + [r])
  {
    hide MoreSchemeRows, Stored, Listing, ValuesOf, Rewritten, AllTakeNew;
    GrownIs(base, answers[0].table, keys, x.rows);
    assert (keys + [r.key])[..|keys|] == keys;
  }

  lemma OtherStep(a: State, x: Crud, base: map<Key, Tuple>, keys: seq<Key>, s: State, answers: seq<Answer>, r: Answer, s': State)
    requires Known(a, x, base, keys, s, answers) && |x.rows| < |answers| < |x.rows| + 4 && Step(s, Program(x)(answers), r, s')
    ensures Known(a, x, base, keys, s', answers + [r])
  {
    hide MoreSchemeRows, Stored, Grown, Fresh, Listing, ValuesOf, Rewritten;
    assert RowKeys(answers + [r], keys);
    if |answers| == |x.rows| + 3 {
      AllGone(base, answers[0].table, keys, x);
    }
  }

  /** What is left when all rows of the table go. */
  lemma AllGone(base: map<Key, Tuple>, t: nat, keys: seq<Key>, x: Crud)
    requires |keys| <= |x.rows| && Fresh(base, t, keys)
    ensures Remaining(Rewritten(Grown(base, t, keys, x.rows), t, AnyRow, x.change), t, AnyRow) == base
  {
    hide Stored, Grown, Filled;
    GrownIs(base, t, keys, x.rows);
    var g := Grown(base, t, keys, x.rows);
    var w := Rewritten(g, t, AnyRow, x.change);
    forall k | k in w ensures w[k].table == g[k].table && (k in base ==> w[k] == base[k]) {
    }
  }

  /** So it goes on. */
  lemma {:induction false} ProgramGoesOn(a: State, x: Crud, path: seq<State>, answers: seq<Answer>)
    returns (base: map<Key, Tuple>, keys: seq<Key>)
    requires Tidy(a) && From(a, Program(x), path, answers) && 1 <= |answers| <= |x.rows| + 4
    ensures Known(a, x, base, keys, path[|answers|], answers)
    decreases |answers|
  {
    hide Known, Step, Program;
    var i := |answers| - 1;
    assert StepAt(Program(x), path, answers, i);
    assert answers == answers[..i] + [answers[i]];
    if i == 0 {
      assert answers[..0] == [] && answers == [answers[0]];
      FirstStep(a, x, answers[0], path[1]);
      base, keys := path[1].tuples, [];
    } else {
      Before(a, Program(x), path, answers, i);
      base, keys := ProgramGoesOn(a, x, path[..i + 1], answers[..i]);
      if i <= |x.rows| {
        InsertStep(a, x, base, keys, path[i], answers[..i], answers[i], path[i + 1]);
        keys := keys + [answers[i].key];
      } else {
        OtherStep(a, x, base, keys, path[i], answers[..i], answers[i], path[i + 1]);
      }
    }
  }

  /** The first steps of a path. */
  lemma Before(a: State, client: Client, path: seq<State>, answers: seq<Answer>, i: nat)
    requires From(a, client, path, answers) && i <= |answers|
    ensures From(a, client, path[..i + 1], answers[..i])
  {
    hide Step;
    var p, q := path[..i + 1], answers[..i];
    forall j | 0 <= j < i ensures StepAt(client, p, q, j) {
      assert StepAt(client, path, answers, j) && q[..j] == answers[..j];
    }
  }

  // ---------------------------------------------------------------- what it may do, and what it finds

  /** Wherever its table may be created, the program may run. */
  lemma ProgramAllowed(a: State, x: Crud)
    requires Tidy(a) && Sensible(x)
    ensures AlwaysAllowed(a, Program(x), |x.rows| + 4)
  {
    hide Path, Known, Creatable, AllHold, Keeps, Stored;
    forall path, answers | From(a, Program(x), path, answers) && |answers| < |x.rows| + 4
      ensures Allowed(path[|answers|], Program(x)(answers))
    {
      if answers != [] {
        var base, keys := ProgramGoesOn(a, x, path, answers);
        TableOpen(a, x, base, keys, path[|answers|], answers);
      }
    }
  }

  lemma TableOpen(a: State, x: Crud, base: map<Key, Tuple>, keys: seq<Key>, s: State, answers: seq<Answer>)
    requires Tidy(a) && Known(a, x, base, keys, s, answers)
    ensures answers != [] && answers[0].NewTable?
    ensures Open(s, answers[0].table) && s.schemes[answers[0].table] == x.fields
  {
  }

  /** The search finds exactly the rows inserted that pass its filter, with their values. */
  ghost predicate Finds(x: Crud, keys: seq<Key>, found: seq<Key>, values: seq<seq<Value>>) {
    && Distinct(found) && |values| == |found| && |keys| == |x.rows|
    && (forall j :: 0 <= j < |keys| ==> (keys[j] in found <==> x.cond(x.rows[j])))
    && forall i :: 0 <= i < |found| ==> FoundOne(x, keys, found[i], values[i])
  }

  ghost predicate FoundOne(x: Crud, keys: seq<Key>, k: Key, value: seq<Value>) {
    exists j :: 0 <= j < |keys| && j < |x.rows| && keys[j] == k && x.rows[j] == value
  }

  lemma SearchFinds(a: State, x: Crud, base: map<Key, Tuple>, keys: seq<Key>, s: State, answers: seq<Answer>, r: Answer)
    requires Known(a, x, base, keys, s, answers) && |answers| == |x.rows| + 1 && Step(s, Program(x)(answers), r, s)
    ensures r.Rows? && Finds(x, keys, r.keys, r.rows)
  {
    hide MoreSchemeRows, Stored, Grown;
    var t := answers[0].table;
    GrownIs(base, t, keys, x.rows);
    forall j | 0 <= j < |keys| ensures keys[j] in r.keys <==> x.cond(x.rows[j]) {
      PlainStored(x.rows[j]);
    }
    forall i | 0 <= i < |r.keys| ensures FoundOne(x, keys, r.keys[i], r.rows[i]) {
      assert r.keys[i] in r.keys && s.tuples[r.keys[i]].table == t;
      var j :| 0 <= j < |keys| && keys[j] == r.keys[i];
      PlainStored(x.rows[j]);
      PlainStored(r.rows[i]);
    }
  }

  // ---------------------------------------------------------------- what it costs

  /** A bound for each command on a row. */
  ghost predicate Cheap(x: Crud, c: nat) {
    && RemovePages(x.fields) <= c
    && forall i :: 0 <= i < |x.rows| ==>
      && |x.rows[i]| == |x.fields| && InsertPages(x.fields, x.rows[i]) <= c && ChangePages(x.rows[i], x.fields, x.change) <= c
  }

  /** The bound of the first `i` commands. */
  ghost function CrudPages(x: Crud, c: nat, i: nat): nat {
    (if i > 0 then TablePages(x.fields) else 0) + Times(Inserted(|x.rows|, i), c)
    + (if i > |x.rows| + 2 then Times(|x.rows|, c) else 0) + if i > |x.rows| + 3 then Times(|x.rows|, c) else 0
  }

  ghost function CrudTables(x: Crud, i: nat): nat {
    (if i > 0 then 1 + |x.fields| else 0) + Times(Inserted(|x.rows|, i), StringCount(x.fields))
    + if i > |x.rows| + 2 then Times(|x.rows|, StringCount(x.fields)) else 0
  }

  /** So many keys weigh at most so many times the heaviest. */
  lemma {:induction false} SumBound(s: set<Key>, w: Key -> nat, c: nat)
    requires forall k :: k in s ==> w(k) <= c
    ensures Sum(s, w) <= Times(|s|, c)
    decreases |s|
  {
    if s != {} {
      var k := Pick(s);
      SumBound(s - {k}, w, c);
      OneMoreTime(|s| - 1, |s|, c);
    }
  }

  /** The rows of the table are those inserted. */
  lemma GrownKeys(base: map<Key, Tuple>, t: nat, keys: seq<Key>, x: Crud)
    requires |keys| <= |x.rows| && Fresh(base, t, keys)
    ensures PassingKeys(Grown(base, t, keys, x.rows), t, AnyRow) == Members(keys) && |Members(keys)| == |keys|
    ensures PassingKeys(Rewritten(Grown(base, t, keys, x.rows), t, AnyRow, x.change), t, AnyRow) == Members(keys)
  {
    hide Stored, Grown, Filled;
    GrownIs(base, t, keys, x.rows);
    DistinctSize(keys);
    var g := Grown(base, t, keys, x.rows);
    var w := Rewritten(g, t, AnyRow, x.change);
    forall k | k in w ensures w[k].table == g[k].table {
    }
  }

  /** What the update of all rows may cost. */
  lemma UpdateCost(base: map<Key, Tuple>, t: nat, keys: seq<Key>, x: Crud, c: nat)
    requires |keys| == |x.rows| && Fresh(base, t, keys) && Cheap(x, c)
    ensures UpdatePages(Grown(base, t, keys, x.rows), t, x.fields, AnyRow, x.change) <= Times(|x.rows|, c)
    ensures UpdateTables(Grown(base, t, keys, x.rows), t, x.fields, AnyRow) == Times(|x.rows|, StringCount(x.fields))
  {
    hide Stored, Grown, Filled, Times, StringCount, ChangePages, PassingKeys, InsertPages, RemovePages;
    GrownIs(base, t, keys, x.rows);
    GrownKeys(base, t, keys, x);
    var g := Grown(base, t, keys, x.rows);
    var w := RewritePages(g, x.fields, x.change);
    forall k | k in Members(keys) ensures w(k) <= c {
      var j :| 0 <= j < |keys| && keys[j] == k;
      PlainStored(x.rows[j]);
    }
    SumBound(Members(keys), w, c);
  }

  /** One more command. */
  lemma NextCost(a: State, x: Crud, base: map<Key, Tuple>, keys: seq<Key>, s: State, answers: seq<Answer>, c: nat)
    requires Known(a, x, base, keys, s, answers) && |answers| < |x.rows| + 4 && Cheap(x, c)
    ensures CrudPages(x, c, |answers|) + PagesOf(s, Program(x)(answers)) <= CrudPages(x, c, |answers| + 1)
    ensures CrudTables(x, |answers|) + TablesOf(s, Program(x)(answers)) <= CrudTables(x, |answers| + 1)
  {
    hide MoreSchemeRows, Grown, Rewritten, Times, StringCount, TablePages, InsertPages, RemovePages, ChangePages, UpdatePages,
         UpdateTables, PassingKeys;
    var i, n := |answers|, |x.rows|;
    if i <= n {
      OneMoreTime(i - 1, n, c);
      OneMoreTime(i - 1, n, StringCount(x.fields));
    } else if i == n + 2 {
      UpdateCost(base, answers[0].table, keys, x, c);
    } else if i == n + 3 {
      GrownKeys(base, answers[0].table, keys, x);
      TimesGrow(n, RemovePages(x.fields), c);
    }
  }

  lemma TimesGrow(n: nat, b: nat, c: nat)
    requires b <= c
    ensures Times(n, b) <= Times(n, c)
  {
  }

  lemma FirstCost(a: State, x: Crud, c: nat)
    ensures CrudPages(x, c, 0) == CrudTables(x, 0) == 0
    ensures PagesOf(a, Program(x)([])) <= CrudPages(x, c, 1) && TablesOf(a, Program(x)([])) <= CrudTables(x, 1)
  {
    hide TablePages, StringCount, Times;
    NoTime(0, c);
    NoTime(0, StringCount(x.fields));
  }

  lemma {:induction false} ProgramCosts(a: State, x: Crud, path: seq<State>, answers: seq<Answer>, c: nat)
    requires Tidy(a) && From(a, Program(x), path, answers) && |answers| <= |x.rows| + 4 && Cheap(x, c)
    ensures PathPages(Program(x), path, answers) <= CrudPages(x, c, |answers|)
    ensures PathTables(Program(x), path, answers) <= CrudTables(x, |answers|)
    ensures |answers| < |x.rows| + 4 ==>
      CrudPages(x, c, |answers|) + PagesOf(path[|answers|], Program(x)(answers)) <= CrudPages(x, c, |answers| + 1)
    ensures |answers| < |x.rows| + 4 ==>
      CrudTables(x, |answers|) + TablesOf(path[|answers|], Program(x)(answers)) <= CrudTables(x, |answers| + 1)
    decreases |answers|
  {
    hide Known, Step, Program, CrudPages, CrudTables, PagesOf, TablesOf, Path, Tidy, Cheap;
    var i := |answers|;
    if i == 0 {
      FirstCost(a, x, c);
    } else {
      Before(a, Program(x), path, answers, i - 1);
      ProgramCosts(a, x, path[..i], answers[..i - 1], c);
      if i < |x.rows| + 4 {
        var base, keys := ProgramGoesOn(a, x, path, answers);
        NextCost(a, x, base, keys, path[i], answers, c);
      }
    }
  }

  lemma {:induction false} CostsRise(x: Crud, c: nat, i: nat, j: nat)
    requires i <= j <= |x.rows| + 4
    ensures CrudPages(x, c, i) <= CrudPages(x, c, j) && CrudTables(x, i) <= CrudTables(x, j)
    decreases j - i
  {
    hide TablePages, StringCount, Times;
    if i < j {
      CostsRise(x, c, i, j - 1);
      if 0 < j - 1 <= |x.rows| {
        OneMoreTime(j - 2, |x.rows|, c);
        OneMoreTime(j - 2, |x.rows|, StringCount(x.fields));
      } else {
        NoTime(0, c);
        NoTime(0, StringCount(x.fields));
      }
    }
  }

  // ---------------------------------------------------------------- its run

  /** What the program has done; the table has no rows again, and the other tables have the rows they had. */
  ghost predicate Finished(a: State, x: Crud, answers: seq<Answer>, s: State) {
    && |answers| == |x.rows| + 4 && answers[0].NewTable? && answers[0].table !in a.schemes
    && s.schemes == a.schemes[answers[0].table := x.fields]
    && MoreSchemeRows(a.tuples, s.tuples) && (forall k :: k in s.tuples ==> s.tuples[k].table != answers[0].table)
    && exists keys :: Told(x, answers, keys)
  }

  /** The inserts gave these keys, the search found the rows that pass, and each loop met every row once. */
  ghost predicate Told(x: Crud, answers: seq<Answer>, keys: seq<Key>)
    requires |answers| == |x.rows| + 4
  {
    var r := answers[|x.rows| + 1];
    && |keys| == |x.rows| && RowKeys(answers, keys) && r.Rows? && Finds(x, keys, r.keys, r.rows)
    && EachOnce(keys, answers[|x.rows| + 2]) && EachOnce(keys, answers[|x.rows| + 3])
  }

  ghost predicate EachOnce(keys: seq<Key>, r: Answer) {
    r.Changed? && Distinct(r.keys) && Members(r.keys) == Members(keys)
  }

  /** Where the program stands after `i` answers, and its next step. */
  lemma Midway(a: State, x: Crud, path: seq<State>, answers: seq<Answer>, i: nat) returns (base: map<Key, Tuple>, keys: seq<Key>)
    requires Tidy(a) && From(a, Program(x), path, answers) && |x.rows| < i < |answers| <= |x.rows| + 4
    ensures Known(a, x, base, keys, path[i], answers[..i]) && Step(path[i], Program(x)(answers[..i]), answers[i], path[i + 1])
    ensures |keys| == |x.rows| && RowKeys(answers, keys)
  {
    hide Step, MoreSchemeRows, Tuples;
    Before(a, Program(x), path, answers, i);
    base, keys := ProgramGoesOn(a, x, path[..i + 1], answers[..i]);
    assert StepAt(Program(x), path, answers, i);
  }

  /** The loops meet every row. */
  lemma LoopMeetsAll(a: State, x: Crud, base: map<Key, Tuple>, keys: seq<Key>, s: State, answers: seq<Answer>, r: Answer, s': State)
    requires Known(a, x, base, keys, s, answers) && |x.rows| + 2 <= |answers| < |x.rows| + 4 && Step(s, Program(x)(answers), r, s')
    ensures EachOnce(keys, r)
  {
    hide MoreSchemeRows, Grown, Rewritten, Remaining, Passes;
    GrownKeys(base, answers[0].table, keys, x);
    assert Members(r.keys) == PassingKeys(s.tuples, answers[0].table, AnyRow);
  }

  /** There is one such sequence of keys. */
  lemma SameKeys(answers: seq<Answer>, a: seq<Key>, b: seq<Key>)
    requires RowKeys(answers, a) && RowKeys(answers, b) && |a| == |b|
    ensures a == b
  {
    forall j | 0 <= j < |a| ensures a[j] == b[j] {
      assert answers[j + 1] == NewRow(a[j]) && answers[j + 1] == NewRow(b[j]);
    }
  }

  /** Row `j` has its new values. */
  ghost predicate RowUpdated(x: Crud, t: nat, k: Key, j: nat, s: State)
    requires j < |x.rows|
  {
    k in s.tuples && s.tuples[k].table == t && TakesNew(x.change(x.rows[j]), x.rows[j], s.tuples[k].values)
  }

  /** Every inserted row has its new values. */
  ghost predicate AfterUpdate(x: Crud, answers: seq<Answer>, s: State)
    requires |answers| > |x.rows|
  {
    forall j :: 0 <= j < |x.rows| ==> RowAfter(x, answers, j, s)
  }

  ghost predicate RowAfter(x: Crud, answers: seq<Answer>, j: nat, s: State)
    requires j < |x.rows| < |answers|
  {
    answers[0].NewTable? && answers[j + 1].NewRow? && RowUpdated(x, answers[0].table, answers[j + 1].key, j, s)
  }

  lemma ProgramUpdates(a: State, x: Crud, path: seq<State>, answers: seq<Answer>)
    requires Tidy(a) && From(a, Program(x), path, answers) && |answers| == |x.rows| + 4
    ensures AfterUpdate(x, answers, path[|x.rows| + 3])
  {
    hide Known, Step, EachOnce, MoreSchemeRows, Path, Program;
    var n := |x.rows|;
    var base, keys := Midway(a, x, path, answers, n + 2);
    assert answers[..n + 2][0] == answers[0];
    RowsUpdated(a, x, base, keys, path[n + 2], answers[..n + 2], answers[n + 2], path[n + 3]);
    var s := path[n + 3];
    forall j | 0 <= j < n ensures RowAfter(x, answers, j, s) {
      assert answers[j + 1] == NewRow(keys[j]);
    }
  }

  lemma RowsUpdated(a: State, x: Crud, base: map<Key, Tuple>, keys: seq<Key>, s: State, answers: seq<Answer>, r: Answer, s': State)
    requires Known(a, x, base, keys, s, answers) && |answers| == |x.rows| + 2 && Step(s, Program(x)(answers), r, s')
    ensures |keys| == |x.rows| && answers != [] && answers[0].NewTable?
    ensures forall j :: 0 <= j < |keys| ==> RowUpdated(x, answers[0].table, keys[j], j, s')
  {
    hide MoreSchemeRows, Grown, Rewritten, Stored, TakesNew, Plain;
    GrownIs(base, answers[0].table, keys, x.rows);
    forall j | 0 <= j < |keys| ensures RowUpdated(x, answers[0].table, keys[j], j, s') {
      PlainStored(x.rows[j]);
      assert Passes(s.tuples[keys[j]], answers[0].table, AnyRow);
      assert TakesNewAt(s.tuples, s'.tuples, keys[j], x.change);
    }
  }

  lemma ProgramEnds(a: State, x: Crud, path: seq<State>, answers: seq<Answer>)
    requires Tidy(a) && From(a, Program(x), path, answers) && |answers| == |x.rows| + 4
    ensures Finished(a, x, answers, path[|answers|])
  {
    hide Known, Step, Finds, EachOnce, MoreSchemeRows, Path, RowKeys, Program;
    var n := |x.rows|;
    var base, keys := Midway(a, x, path, answers, n + 1);
    SearchSame(a, x, base, keys, path[n + 1], answers[..n + 1], answers[n + 1], path[n + 2]);
    SearchFinds(a, x, base, keys, path[n + 1], answers[..n + 1], answers[n + 1]);
    forall i | n + 2 <= i < n + 4 ensures EachOnce(keys, answers[i]) {
      var more, same := Midway(a, x, path, answers, i);
      SameKeys(answers, keys, same);
      LoopMeetsAll(a, x, more, same, path[i], answers[..i], answers[i], path[i + 1]);
    }
    assert Told(x, answers, keys);
    base, keys := ProgramGoesOn(a, x, path, answers);
    TableNew(a, x, base, keys, path[n + 4], answers);
    TableEmpty(a, x, base, keys, path[n + 4], answers);
  }

  lemma TableNew(a: State, x: Crud, base: map<Key, Tuple>, keys: seq<Key>, s: State, answers: seq<Answer>)
    requires Known(a, x, base, keys, s, answers)
    ensures answers != [] && answers[0].NewTable? && answers[0].table !in a.schemes && RowKeys(answers, keys)
    ensures s.schemes == a.schemes[answers[0].table := x.fields]
  {
  }

  lemma SearchSame(a: State, x: Crud, base: map<Key, Tuple>, keys: seq<Key>, s: State, answers: seq<Answer>, r: Answer, s': State)
    requires Known(a, x, base, keys, s, answers) && |answers| == |x.rows| + 1 && Step(s, Program(x)(answers), r, s')
    ensures s' == s && r.Rows?
  {
    hide Listing, ValuesOf, Tuples, Fresh, MoreSchemeRows;
  }

  lemma TableEmpty(a: State, x: Crud, base: map<Key, Tuple>, keys: seq<Key>, s: State, answers: seq<Answer>)
    requires Known(a, x, base, keys, s, answers) && |answers| == |x.rows| + 4
    ensures MoreSchemeRows(a.tuples, s.tuples) && forall k :: k in s.tuples ==> s.tuples[k].table != answers[0].table
  {
    hide MoreSchemeRows, Grown;
  }

  /** With room for all its commands the program completes; `updated` are the tables after its update. */
  method RunProgram(db: Database, tables: map<nat, Fields>, x: Crud, ghost c: nat)
    returns (tables': map<nat, Fields>, answers: seq<Answer>, ghost path: seq<State>)
    requires Ready(db, tables) && Sensible(x) && Cheap(x, c)
    requires db.Room(CrudPages(x, c, |x.rows| + 4), CrudTables(x, |x.rows| + 4))
    modifies db`heaps, db`schemes, db`uses, db.st
    ensures Ready(db, tables') && Finished(old(Now(db)), x, answers, Now(db))
    ensures |answers| == |x.rows| + 4 && From(old(Now(db)), Program(x), path, answers) && path[|answers|] == Now(db)
    ensures AfterUpdate(x, answers, path[|x.rows| + 3])
  {
    hide Database.Valid, Database.Tuples, SchemesBelow, SchemeFields, AllTyped, Sensible, Cheap, Path, AlwaysAllowed, PathPages,
         PathTables, CrudPages, CrudTables, Accounted, Present, PagesOf, TablesOf, Finished, AfterUpdate, Program;
    ghost var a := Now(db);
    var n := |x.rows| + 4;
    KnownTables(db);
    ProgramAllowed(a, x);
    var res;
    res, tables', answers, path := Run(db, tables, Program(x), n);
    ProgramCosts(a, x, path, answers, c);
    if |answers| < n {
      CostsRise(x, c, |answers| + 1, n);
      NoKeyed(x, answers, path[|answers|]);
      assert false;
    }
    ProgramEnds(a, x, path, answers);
    ProgramUpdates(a, x, path, answers);
  }

  lemma NoKeyed(x: Crud, answers: seq<Answer>, s: State)
    ensures Present(s, Program(x)(answers))
  {
  }

  // ---------------------------------------------------------------- with its own table

  /** "test_table", and the string of its rows */
  const TEST_TABLE: seq<byte> := [0x74, 0x65, 0x73, 0x74, 0x5F, 0x74, 0x61, 0x62, 0x6C, 0x65]
  const TEST_STRING: seq<byte> :=
    [0x3C, 0x73, 0x74, 0x72, 0x69, 0x6E, 0x67, 0x21, 0x20, 0x66, 0x6F, 0x72, 0x20, 0x74, 0x65, 0x73, 0x74, 0x73, 0x21, 0x3E]

  /** The floats 10 and 240. */
  const TEN: seq<byte> := [0, 0, 0x20, 0x41]
  const BOUND: seq<byte> := [0, 0, 0x70, 0x43]

  const TEST_ROWS: nat := 100

  /** Columns "one", "two", "three" and "four". */
  function TestFields(): (s: Fields)
    ensures |s| == 4
  {
    [Field([0x6F, 0x6E, 0x65], Float, 1, 0), Field([0x74, 0x77, 0x6F], Int32, 1, 1),
     Field([0x74, 0x68, 0x72, 0x65, 0x65], Str, 1, 2), Field([0x66, 0x6F, 0x75, 0x72], UInt16, 1, 3)]
  }

  function TestRow(float: seq<byte>, i: nat): (s: seq<Value>)
    requires i < TEST_ROWS
    ensures |s| == 4
  {
    [Raw(float), Raw(EncodeU32(i)), Text(TEST_STRING), Raw(EncodeU16(i + 1))]
  }

  predicate FirstAbove(s: seq<Value>) {
    |s| == 4 && Comparison.Comparable(Float, s[0]) && Comparison.Test(Comparison.Greater, Float, s[0], Raw(BOUND))
  }

  function SetFirst(s: seq<Value>): seq<Option<Value>> {
    if |s| == 4 then [Some(Raw(TEN)), None, None, None] else []
  }

  /** The program, with whatever floats it computes. */
  function TestProgram(floats: seq<seq<byte>>): Crud
    requires |floats| == TEST_ROWS
  {
    Crud(TEST_TABLE, TestFields(), seq(TEST_ROWS, i requires 0 <= i < TEST_ROWS => TestRow(floats[i], i)), FirstAbove, SetFirst)
  }

  lemma TestTable()
    ensures Creatable(TEST_TABLE, TestFields()) && AllNamed(TestFields())
    ensures StringCount(TestFields()) == 1 && RowSize(TestFields()) == 18 && TablePages(TestFields()) == 13
  {
    hide Capacity;
    var f := TestFields();
    assert TEST_TABLE[0] != HEAP_TABLES_NAME[0];
    assert Offset(f, 1) == 4;
    assert Offset(f, 2) == 8;
    assert Offset(f, 3) == 16;
    assert StringColumns(f, 1) == 0;
    assert StringColumns(f, 2) == 0;
    assert StringColumns(f, 3) == 1;
    NamesCost();
  }

  lemma NamesCost()
    ensures NamePages(TestFields(), 4) == 12
  {
    var f := TestFields();
    assert NamePages(f, 1) == 3;
    assert NamePages(f, 2) == 6;
    assert NamePages(f, 3) == 9;
  }

  lemma SetFirstKeeps()
    ensures Keeps(TestFields(), SetFirst)
  {
  }

  lemma TestRowCost(float: seq<byte>, i: nat)
    requires i < TEST_ROWS && |float| == 4
    ensures AllHold(TestFields(), TestRow(float, i))
    ensures InsertPages(TestFields(), TestRow(float, i)) == 3 && ChangePages(TestRow(float, i), TestFields(), SetFirst) == 3
  {
    hide TestFields, TextPages, ExtentPages, RowSize, StringCount, AllHold;
    TestTable();
    SmallExtent();
    var s := TestRow(float, i);
    TextCost(s);
    TextCost(Filled(SetFirst(s), s));
    TestRowHolds(float, i);
  }

  lemma SmallExtent()
    ensures ExtentPages(18) == 1
  {
  }

  lemma TestRowHolds(float: seq<byte>, i: nat)
    requires i < TEST_ROWS && |float| == 4
    ensures AllHold(TestFields(), TestRow(float, i))
  {
    hide EncodeU16, EncodeU32;
  }

  lemma TextCost(s: seq<Value>)
    requires |s| == 4 && s[2] == Text(TEST_STRING)
    ensures TextPages(TestFields(), s) == 2
  {
    var f := TestFields();
    assert ValuesPages(f, s, 1) == 0;
    assert ValuesPages(f, s, 2) == 0;
    assert ValuesPages(f, s, 3) == 2;
  }

  /** There is more than enough room for it in a new file. */
  lemma TestFits(floats: seq<seq<byte>>)
    requires |floats| == TEST_ROWS && forall i :: 0 <= i < TEST_ROWS ==> |floats[i]| == 4
    ensures var x := TestProgram(floats);
      |x.rows| == TEST_ROWS && Sensible(x) && Cheap(x, 3) && CrudPages(x, 3, |x.rows| + 4) == 913 && CrudTables(x, |x.rows| + 4) == 205
  {
    hide TestFields, TestRow, AllHold, Keeps, Creatable, InsertPages, ChangePages, TablePages, RowSize, StringCount;
    var x := TestProgram(floats);
    TestTable();
    SetFirstKeeps();
    forall i | 0 <= i < TEST_ROWS
      ensures AllHold(x.fields, x.rows[i]) && InsertPages(x.fields, x.rows[i]) == 3 && ChangePages(x.rows[i], x.fields, x.change) == 3
    {
      TestRowCost(floats[i], i);
    }
  }

  /** In a new file the example program completes, whatever the floats are. */
  method RunExample(floats: seq<seq<byte>>) returns (db: Database, answers: seq<Answer>, ghost path: seq<State>)
    requires |floats| == TEST_ROWS && forall i :: 0 <= i < TEST_ROWS ==> |floats[i]| == 4
    ensures fresh(db) && db.Valid() && |answers| == TEST_ROWS + 4 && |path| == |answers| + 1
    ensures path[0].schemes == map[SCHEME_TABLE := SchemeFields()] && path[|answers|] == Now(db)
    ensures From(path[0], Program(TestProgram(floats)), path, answers) && Finished(path[0], TestProgram(floats), answers, Now(db))
    ensures AllNowTen(answers, path[TEST_ROWS + 3])
  {
    hide Database.Valid, Database.Tuples, SchemesBelow, SchemeFields, AllTyped, Sensible, Cheap, CrudPages, CrudTables, Finished,
         AfterUpdate, AllNowTen, TestProgram, Program, Path;
    var tables;
    db, tables := NewFile();
    TestFits(floats);
    tables, answers, path := RunProgram(db, tables, TestProgram(floats), 3);
    AllTen(floats, answers, path[TEST_ROWS + 3]);
  }

  /** Row `i` has the float 10, and otherwise the values it was inserted with. */
  ghost predicate NowTen(answers: seq<Answer>, i: nat, s: State)
    requires i < TEST_ROWS < |answers|
  {
    var r := answers[i + 1];
    && r.NewRow? && r.key in s.tuples
    && s.tuples[r.key].values == [Some(Raw(TEN)), Some(Raw(EncodeU32(i))), Some(Text(TEST_STRING)), Some(Raw(EncodeU16(i + 1)))]
  }

  /** Every inserted row has. */
  ghost predicate AllNowTen(answers: seq<Answer>, s: State) {
    |answers| > TEST_ROWS && forall i :: 0 <= i < TEST_ROWS ==> NowTen(answers, i, s)
  }

  lemma AllTen(floats: seq<seq<byte>>, answers: seq<Answer>, s: State)
    requires |floats| == TEST_ROWS && |answers| > TEST_ROWS && AfterUpdate(TestProgram(floats), answers, s)
    ensures AllNowTen(answers, s)
  {
    hide EncodeU32, EncodeU16, TestFields;
    var x := TestProgram(floats);
    forall i | 0 <= i < TEST_ROWS ensures NowTen(answers, i, s) {
      assert RowAfter(x, answers, i, s);
      OneTen(floats[i], i, s.tuples[answers[i + 1].key].values);
    }
  }

  lemma OneTen(float: seq<byte>, i: nat, values: seq<Option<Value>>)
    requires i < TEST_ROWS && TakesNew(SetFirst(TestRow(float, i)), TestRow(float, i), values)
    ensures values == [Some(Raw(TEN)), Some(Raw(EncodeU32(i))), Some(Text(TEST_STRING)), Some(Raw(EncodeU16(i + 1)))]
  {
    hide EncodeU32, EncodeU16;
  }
}
