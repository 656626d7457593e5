/** Whole runs: any sequence of commands keeps the file in order and changes the client tables as a map changes. */
module Runs {
  import opened Common
  import opened Bytes
  import opened PageLayout
  import opened StorageModel
  import opened StorageFrames
  import opened CursorModel
  import opened StorageEngine
  import opened TableMap
  import opened RowFormat
  import opened StringStore
  import opened Tables
  import opened Catalog
  import opened Consistency
  import opened Databases
  import opened PageCosts
  import opened RowsIterators
  import opened ClientLoops
  import opened KeyedRows
  import opened Schemas
  import opened Conservation
  import opened FileImage
  import opened ListHeads
  import opened Persistence
  import ChunkCache

  datatype Command =
    | Create(name: seq<byte>, fields: Fields)
    | Insert(table: nat, values: seq<Value>)
    | Remove(table: nat, key: Key)
    | Replace(table: nat, key: Key, values: seq<Value>)
    | SelectAll(table: nat, cond: Condition)
    | DeleteAll(table: nat, cond: Condition)
    | UpdateAll(table: nat, cond: Condition, change: Change)

  /** What a command tells the client. */
  datatype Answer =
    | NewTable(table: nat)
    | NewRow(key: Key)
    | Rows(keys: seq<Key>, rows: seq<seq<Value>>)
    | Changed(keys: seq<Key>)
    | Nothing

  /** A client chooses its next command from the answers so far. */
  type Client = seq<Answer> -> Command

  /** What clients know: the tables, and their rows with strings. */
  datatype State = State(schemes: map<nat, Fields>, tuples: map<Key, Tuple>)

  /** The command names a client table that is open, its values fit, and its key is a place in a page of the table. */
  ghost predicate Allowed(a: State, c: Command) {
    match c
    case Create(name, fields) => Creatable(name, fields)
    case Insert(t, values) => Open(a, t) && AllHold(a.schemes[t], values)
    case Remove(t, k) => Open(a, t) && Within(a.tuples, t, k)
    case Replace(t, k, values) => Open(a, t) && AllHold(a.schemes[t], values) && Within(a.tuples, t, k)
    case SelectAll(t, _) => Open(a, t)
    case DeleteAll(t, _) => Open(a, t)
    case UpdateAll(t, _, g) => Open(a, t) && Keeps(a.schemes[t], g)
  }

  predicate Creatable(name: seq<byte>, fields: Fields) {
    Definable(fields) && Loadable(fields) && NoNul(name) && |name| < TABLE_NAME_MAX_SZ && name != HEAP_TABLES_NAME
  }

  ghost predicate Open(a: State, t: nat) {
    t in a.schemes && t != SCHEME_TABLE
  }

  /** The row that the command names is there. */
  ghost predicate Present(a: State, c: Command) {
    match c
    case Remove(t, k) => Has(a.tuples, t, k)
    case Replace(t, k, _) => Has(a.tuples, t, k)
    case _ => true
  }

  ghost predicate Created(a: State, fields: Fields, b: State, t: nat, keys: seq<Key>) {
    t !in a.schemes && b.schemes == a.schemes[t := fields] && |keys| == |fields| && Written(a.tuples, b.tuples, keys, fields, t)
  }

  /** The keys are those of the passing rows of the table, each once. */
  ghost predicate Listing(a: State, t: nat, cond: Condition, keys: seq<Key>) {
    Distinct(keys) && forall k: Key :: k in keys <==> k in a.tuples && Passes(a.tuples[k], t, cond)
  }

  /** The rows have the values of the tuples. */
  ghost predicate ValuesOf(a: State, t: nat, keys: seq<Key>, rows: seq<seq<Value>>) {
    |rows| == |keys| && forall i :: 0 <= i < |keys| ==> keys[i] in a.tuples && a.tuples[keys[i]] == Tuple(t, Stored(rows[i]))
  }

  /** One command on the map, with what it answers. */
  ghost predicate Step(a: State, c: Command, r: Answer, b: State) {
    match c
    case Create(_, fields) => r.NewTable? && exists keys :: Created(a, fields, b, r.table, keys)
    case Insert(t, values) => r.NewRow? && r.key !in a.tuples && b == State(a.schemes, a.tuples[r.key := Tuple(t, Stored(values))])
    case Remove(t, k) => r == Nothing && Has(a.tuples, t, k) && b == State(a.schemes, a.tuples - {k})
    case Replace(t, k, values) =>
      r == Nothing && Has(a.tuples, t, k) && b == State(a.schemes, a.tuples[k := Tuple(t, Stored(values))])
    case SelectAll(t, cond) => r.Rows? && b == a && Listing(a, t, cond, r.keys) && ValuesOf(a, t, r.keys, r.rows)
    case DeleteAll(t, cond) => r.Changed? && Listing(a, t, cond, r.keys) && b == State(a.schemes, Remaining(a.tuples, t, cond))
    case UpdateAll(t, cond, g) =>
      && r.Changed? && Listing(a, t, cond, r.keys) && AllTakeNew(a.tuples, b.tuples, r.keys, g)
      && b == State(a.schemes, Rewritten(a.tuples, t, cond, g))
  }

  /** The tuples that stay when the passing ones of a table are deleted. */
  ghost function Remaining(tuples: map<Key, Tuple>, t: nat, cond: Condition): map<Key, Tuple> {
    map k | k in tuples && !Passes(tuples[k], t, cond) :: tuples[k]
  }

  /** The tuples when the passing ones of a table are rewritten. */
  ghost function Rewritten(tuples: map<Key, Tuple>, t: nat, cond: Condition, g: Change): map<Key, Tuple> {
    map k | k in tuples :: if Passes(tuples[k], t, cond) then Updated(tuples[k], g) else tuples[k]
  }

  // ---------------------------------------------------------------- what a command may cost

  ghost function FieldsOf(a: State, t: nat): Fields {
    if t in a.schemes then a.schemes[t] else []
  }

  /** By how many pages the command makes the file grow at most, told from the state before it. */
  ghost function PagesOf(a: State, c: Command): nat {
    match c
    case Create(_, fields) => TablePages(fields)
    case Insert(t, values) => if |values| == |FieldsOf(a, t)| then InsertPages(FieldsOf(a, t), values) else 0
    case Remove(t, _) => RemovePages(FieldsOf(a, t))
    case Replace(t, _, values) => if |values| == |FieldsOf(a, t)| then ReplacePages(FieldsOf(a, t), values) else 0
    case SelectAll(_, _) => 0
    case DeleteAll(t, cond) => Times(|PassingKeys(a.tuples, t, cond)|, RemovePages(FieldsOf(a, t)))
    case UpdateAll(t, cond, g) => UpdatePages(a.tuples, t, FieldsOf(a, t), cond, g)
  }

  /** And by how many tables, heap tables included. */
  ghost function TablesOf(a: State, c: Command): nat {
    match c
    case Create(_, fields) => 1 + |fields|
    case Insert(t, _) => StringCount(FieldsOf(a, t))
    case Replace(t, _, _) => StringCount(FieldsOf(a, t))
    case UpdateAll(t, cond, _) => UpdateTables(a.tuples, t, FieldsOf(a, t), cond)
    case _ => 0
  }

  // ---------------------------------------------------------------- paths

  /** The client's commands with these answers lead from state to state. */
  ghost predicate Path(client: Client, path: seq<State>, answers: seq<Answer>) {
    |path| == |answers| + 1 && forall i :: 0 <= i < |answers| ==> StepAt(client, path, answers, i)
  }

  ghost predicate StepAt(client: Client, path: seq<State>, answers: seq<Answer>, i: nat)
    requires i < |answers| && |path| == |answers| + 1
  {
    Step(path[i], client(answers[..i]), answers[i], path[i + 1])
  }

  /** A path of the client that starts at `a`. */
  ghost predicate From(a: State, client: Client, path: seq<State>, answers: seq<Answer>) {
    |path| == |answers| + 1 && path[0] == a && Path(client, path, answers)
  }

  /** Each of the first `n` commands is allowed, whatever the answers before it were. */
  ghost predicate AlwaysAllowed(a: State, client: Client, n: nat) {
    forall path, answers :: From(a, client, path, answers) && |answers| < n ==> Allowed(path[|answers|], client(answers))
  }

  /** The bounds of the commands on the path, added up. */
  ghost function PathPages(client: Client, path: seq<State>, answers: seq<Answer>): nat
    requires |path| == |answers| + 1
  {
    if answers == [] then 0
    else
      var i := |answers| - 1;
      PathPages(client, path[..i + 1], answers[..i]) + PagesOf(path[i], client(answers[..i]))
  }

  ghost function PathTables(client: Client, path: seq<State>, answers: seq<Answer>): nat
    requires |path| == |answers| + 1
  {
    if answers == [] then 0
    else
      var i := |answers| - 1;
      PathTables(client, path[..i + 1], answers[..i]) + TablesOf(path[i], client(answers[..i]))
  }

  lemma NoSteps(client: Client, a: State)
    ensures Path(client, [a], []) && PathPages(client, [a], []) == 0 && PathTables(client, [a], []) == 0
  {
  }

  /** One more step. */
  lemma Longer(client: Client, path: seq<State>, answers: seq<Answer>, r: Answer, b: State)
    requires Path(client, path, answers) && Step(path[|answers|], client(answers), r, b)
    ensures Path(client, path + [b], answers + [r])
    ensures PathPages(client, path + [b], answers + [r]) == PathPages(client, path, answers) + PagesOf(path[|answers|], client(answers))
    ensures PathTables(client, path + [b], answers + [r]) == PathTables(client, path, answers) + TablesOf(path[|answers|], client(answers))
  {
    hide Step, PagesOf, TablesOf;
    var p, q, n := path + [b], answers + [r], |answers|;
    assert q[..n] == answers && p[..n + 1] == path;
    forall i | 0 <= i < |q| ensures StepAt(client, p, q, i) {
      if i < n {
        assert StepAt(client, path, answers, i) && q[..i] == answers[..i];
      }
    }
  }

  ghost function Now(db: Database): State
    reads db, db.st
  {
    State(db.schemes, db.Tuples())
  }

  /** Every data page of the file lies in exactly one extent, with exactly one holder. */
  ghost predicate Accounted(v: View) {
    forall x :: RESERVED_TO_FILE_META <= x < v.pagesNumber ==> OneHolder(v, x)
  }

  lemma ValidAccounts(db: Database)
    requires db.Valid()
    ensures Accounted(db.st.V())
  {
    hide Storage.OnBytes, Inv, NoMoving, Transits, Consistent, NoLeaks, OneHolder, Contents;
    var v := db.st.V();
    forall x | RESERVED_TO_FILE_META <= x < v.pagesNumber ensures OneHolder(v, x) {
      PageConservation(v, x);
    }
  }

  /** The pages, the counters and all list heads are in the bytes, and each page lies where the chunk cache computes its bytes right. */
  lemma ValidOnBytes(db: Database)
    requires db.Valid()
    ensures InFile(db)
    ensures forall p :: p in db.st.pages ==> p < ChunkCache.BYTE_LIMIT && ChunkCache.Bytes32(p) == p * SYS_PAGE_SIZE
    ensures forall p :: p in db.st.pages ==> (p + db.st.pages[p].scale) * SYS_PAGE_SIZE <= |db.st.bytes|
  {
    hide Inv, NoMoving, Transits, Consistent, NoLeaks, Image, Contents, InFile, Counts, Header, Mirrors, Placed,
         AllListed, AtHome;
    ValidInFile(db);
    ReachedRight(db.st.V());
  }

  /** The database is in order, the caller knows its tables, and all values fit their columns. */
  ghost predicate Ready(db: Database, tables: map<nat, Fields>)
    reads db, db.st
  {
    && db.Valid() && db.schemes == tables && SCHEME_TABLE in tables && tables[SCHEME_TABLE] == SchemeFields()
    && SchemesBelow(db.Tuples(), db.st.tablesNumber) && AllTyped(db.Tuples(), tables)
  }

  lemma StillBelow(a: map<Key, Tuple>, b: map<Key, Tuple>, n: nat, m: nat)
    requires SchemesBelow(a, n) && n <= m
    requires forall k :: k in b && b[k].table == SCHEME_TABLE ==> k in a && a[k] == b[k]
    ensures SchemesBelow(b, m)
  {
    hide IsSchemeRow;
    forall k | k in b && b[k].table == SCHEME_TABLE ensures OfSome(b[k], m) {
      assert OfSome(a[k], n);
    }
  }

  /** A new file is ready for commands, with the schema table as the only table open. */
  method NewFile() returns (db: Database, tables: map<nat, Fields>)
    ensures fresh(db) && fresh(db.st) && db.st.pagesNumber <= 11 && db.st.tablesNumber == 4
    ensures Ready(db, tables) && tables == map[SCHEME_TABLE := SchemeFields()]
  {
    hide Database.Valid, Database.Tuples, SchemesBelow, SchemeFields, SchemeAt, AllTyped;
    db := CreateStorage();
    tables := map[SCHEME_TABLE := SchemeFields()];
  }

  // ---------------------------------------------------------------- single commands

  method ExecuteCreate(db: Database, tables: map<nat, Fields>, name: seq<byte>, fields: Fields)
    returns (ok: bool, tables': map<nat, Fields>, t: nat)
    requires Ready(db, tables) && Allowed(Now(db), Create(name, fields))
    modifies db`heaps, db`schemes, db`uses, db.st
    ensures !ok ==> db.AtLimit()
    ensures db.GrewBy(TablePages(fields), 1 + |fields|)
    ensures ok ==> Ready(db, tables') && Step(old(Now(db)), Create(name, fields), NewTable(t), Now(db))
    ensures ok ==> HasRecord(db.Db(), name, t, fields)
  {
    hide Database.Valid, Database.Tuples, SchemesBelow, Written, Definable, Loadable, Reloaded, SchemeFields, SchemeAt,
         AllTyped, HasRecord;
    ghost var was := Now(db);
    tables' := tables;
    DefinableStores(fields);
    var loaded;
    ok, t, loaded := CreateTable(db, name, fields);
    if ok {
      ghost var keys :| |keys| == |fields| && Written(was.tuples, db.Tuples(), keys, fields, t);
      assert Created(was, fields, Now(db), t, keys);
      WrittenTyped(was.tuples, db.Tuples(), keys, fields, t, tables, t, loaded);
      tables' := tables[t := loaded];
    }
  }

  method ExecuteInsert(db: Database, tables: map<nat, Fields>, t: nat, values: seq<Value>) returns (ok: bool, k: Key)
    requires Ready(db, tables) && t in tables && Allowed(Now(db), Insert(t, values))
    modifies db`heaps, db`schemes, db`uses, db.st
    ensures !ok ==> db.AtLimit()
    ensures db.GrewBy(old(PagesOf(Now(db), Insert(t, values))), old(TablesOf(Now(db), Insert(t, values))))
    ensures ok ==> Ready(db, tables) && Step(old(Now(db)), Insert(t, values), NewRow(k), Now(db))
  {
    hide Database.Valid, Database.Tuples, SchemesBelow, AllHold, Stored, SchemeFields, AllTyped, InsertPages, TextPages,
         StringCount, Database.PlacedAfter;
    ghost var was, n := Now(db), db.st.tablesNumber;
    HoldSize(tables[t], values);
    NewKeys(db);
    ghost var m;
    ok, k, m := db.Insert(t, tables[t], values);
    if ok {
      StillBelow(was.tuples, db.Tuples(), n, db.st.tablesNumber);
      OneTyped(was.tuples, tables, k, t, values);
    }
  }

  method ExecuteRemove(db: Database, tables: map<nat, Fields>, t: nat, k: Key) returns (res: Outcome)
    requires Ready(db, tables) && t in tables && Allowed(Now(db), Remove(t, k))
    modifies db.st
    ensures res == Panicked <==> !old(Present(Now(db), Remove(t, k)))
    ensures res == Stopped ==> db.AtLimit()
    ensures db.GrewBy(old(PagesOf(Now(db), Remove(t, k))), 0)
    ensures res == Done ==> Ready(db, tables) && Step(old(Now(db)), Remove(t, k), Nothing, Now(db))
  {
    hide Database.Valid, Database.Tuples, SchemesBelow, SchemeFields, AllTyped, Within, RemovePages;
    ghost var was, n := Now(db), db.st.tablesNumber;
    res := RemoveAt(db, t, tables[t], k);
    if res == Done {
      StillBelow(was.tuples, db.Tuples(), n, db.st.tablesNumber);
      FewerTyped(was.tuples, db.Tuples(), tables);
    }
  }

  method ExecuteReplace(db: Database, tables: map<nat, Fields>, t: nat, k: Key, values: seq<Value>) returns (res: Outcome)
    requires Ready(db, tables) && t in tables && Allowed(Now(db), Replace(t, k, values))
    modifies db`heaps, db`schemes, db`uses, db.st
    ensures res == Panicked <==> !old(Present(Now(db), Replace(t, k, values)))
    ensures res == Stopped ==> db.AtLimit()
    ensures db.GrewBy(old(PagesOf(Now(db), Replace(t, k, values))), old(TablesOf(Now(db), Replace(t, k, values))))
    ensures res == Done ==> Ready(db, tables) && Step(old(Now(db)), Replace(t, k, values), Nothing, Now(db))
  {
    hide Database.Valid, Database.Tuples, SchemesBelow, SchemeFields, AllHold, Stored, AllTyped, Within, ReplacePages,
         StringCount;
    ghost var was, n := Now(db), db.st.tablesNumber;
    HoldSize(tables[t], values);
    res := ReplaceAt(db, t, tables[t], k, values);
    if res == Done {
      StillBelow(was.tuples, db.Tuples(), n, db.st.tablesNumber);
      OneTyped(was.tuples, tables, k, t, values);
    }
  }

  method ExecuteSelect(db: Database, tables: map<nat, Fields>, t: nat, cond: Condition) returns (ok: bool, keys: seq<Key>, rows: seq<seq<Value>>)
    requires Ready(db, tables) && t in tables && Allowed(Now(db), SelectAll(t, cond))
    ensures !ok ==> db.AtLimit()
    ensures ok ==> Step(Now(db), SelectAll(t, cond), Rows(keys, rows), Now(db))
  {
    hide Database.Valid, Database.Tuples, SchemesBelow, SchemeFields, AllTyped, KeysMet, Passes, Stored;
    HitsAreTuples(db, t, tables[t], cond);
    var res;
    res, keys, rows := Select(db, t, tables[t], cond);
    ok := res != Strayed;
  }

  method ExecuteDelete(db: Database, tables: map<nat, Fields>, t: nat, cond: Condition) returns (ok: bool, keys: seq<Key>)
    requires Ready(db, tables) && t in tables && Allowed(Now(db), DeleteAll(t, cond))
    modifies db.st
    ensures !ok ==> db.AtLimit()
    ensures db.GrewBy(old(PagesOf(Now(db), DeleteAll(t, cond))), 0)
    ensures ok ==> Ready(db, tables) && Step(old(Now(db)), DeleteAll(t, cond), Changed(keys), Now(db))
  {
    hide Database.Valid, Database.Tuples, SchemesBelow, SchemeFields, AllTyped, KeysMet, Passes, Times, RemovePages,
         PassingKeys;
    ghost var was, n := Now(db), db.st.tablesNumber;
    HitsAreTuples(db, t, tables[t], cond);
    MetArePassing(KeysMet(db, t, tables[t], cond), was.tuples, t, cond);
    ok, keys := Delete(db, t, tables[t], cond);
    if ok {
      StillBelow(was.tuples, db.Tuples(), n, db.st.tablesNumber);
      FewerTyped(was.tuples, db.Tuples(), tables);
      AllDeleted(was.tuples, db.Tuples(), keys, t, cond);
    }
  }

  method ExecuteUpdate(db: Database, tables: map<nat, Fields>, t: nat, cond: Condition, g: Change) returns (ok: bool, keys: seq<Key>)
    requires Ready(db, tables) && t in tables && Allowed(Now(db), UpdateAll(t, cond, g))
    modifies db`heaps, db`schemes, db`uses, db.st
    ensures !ok ==> db.AtLimit()
    ensures db.GrewBy(old(PagesOf(Now(db), UpdateAll(t, cond, g))), old(TablesOf(Now(db), UpdateAll(t, cond, g))))
    ensures ok ==> Ready(db, tables) && Step(old(Now(db)), UpdateAll(t, cond, g), Changed(keys), Now(db))
  {
    hide Database.Valid, Database.Tuples, SchemesBelow, SchemeFields, AllTyped, WellTyped, Keeps, KeysMet, Passes, UpdatedAll,
         UpdatePages, UpdateTables, AllTakeNew;
    ghost var was, n := Now(db), db.st.tablesNumber;
    TypedTable(was.tuples, tables, t);
    HitsAreTuples(db, t, tables[t], cond);
    ok, keys := Update(db, t, tables[t], cond, g);
    if ok {
      AllUpdated(was.tuples, keys, t, cond, g);
      UpdateTyped(was.tuples, db.Tuples(), tables, t, cond, g);
      StillBelow(was.tuples, db.Tuples(), n, db.st.tablesNumber);
    }
  }

  // ---------------------------------------------------------------- what the commands keep

  lemma OneTyped(tuples: map<Key, Tuple>, tables: map<nat, Fields>, k: Key, t: nat, values: seq<Value>)
    requires AllTyped(tuples, tables) && t in tables && AllHold(tables[t], values)
    ensures AllTyped(tuples[k := Tuple(t, Stored(values))], tables)
  {
    hide AllHold, Plain, Stored;
    PlainStored(values);
  }

  lemma FewerTyped(a: map<Key, Tuple>, b: map<Key, Tuple>, tables: map<nat, Fields>)
    requires AllTyped(a, tables) && forall k :: k in b ==> k in a && b[k] == a[k]
    ensures AllTyped(b, tables)
  {
    hide AllHold, Plain;
  }

  lemma TypedTable(tuples: map<Key, Tuple>, tables: map<nat, Fields>, t: nat)
    requires AllTyped(tuples, tables) && t in tables
    ensures WellTyped(tuples, t, tables[t])
  {
    hide AllHold, Plain;
  }

  lemma AllDeleted(was: map<Key, Tuple>, now: map<Key, Tuple>, deleted: seq<Key>, t: nat, cond: Condition)
    requires now == was - set k | k in deleted
    requires forall k :: k in deleted <==> k in was && Passes(was[k], t, cond)
    ensures now == Remaining(was, t, cond)
  {
    hide Passes;
  }

  lemma AllUpdated(was: map<Key, Tuple>, updated: seq<Key>, t: nat, cond: Condition, g: Change)
    requires forall k :: k in updated <==> k in was && Passes(was[k], t, cond)
    ensures UpdatedAll(was, updated, g) == Rewritten(was, t, cond, g)
    ensures forall k :: k in was && was[k].table != t ==> k in Rewritten(was, t, cond, g) && Rewritten(was, t, cond, g)[k] == was[k]
    ensures forall k :: k in Rewritten(was, t, cond, g) ==> k in was && Rewritten(was, t, cond, g)[k].table == was[k].table
  {
    hide Plain, Stored, Filled;
  }

  lemma UpdateTyped(was: map<Key, Tuple>, now: map<Key, Tuple>, tables: map<nat, Fields>, t: nat, cond: Condition,
                    g: Change)
    requires AllTyped(was, tables) && t in tables && now == Rewritten(was, t, cond, g) && WellTyped(now, t, tables[t])
    ensures AllTyped(now, tables)
  {
    hide AllHold, Plain, Stored, Filled;
  }

  // ---------------------------------------------------------------- runs

  /**
   * One command carried out. `tables` are the client tables, as the caller opened them. The program
   * panics exactly if a row named by its key is not there, and it stops only if the bounds of the
   * command, told from the state before it, reach the limits of the format.
   */
  method Execute(db: Database, tables: map<nat, Fields>, c: Command) returns (res: Outcome, tables': map<nat, Fields>, answer: Answer)
    requires Ready(db, tables) && Allowed(Now(db), c)
    modifies db`heaps, db`schemes, db`uses, db.st
    ensures res == Panicked <==> !old(Present(Now(db), c))
    ensures res == Stopped ==> db.AtLimit()
    ensures db.GrewBy(old(PagesOf(Now(db), c)), old(TablesOf(Now(db), c)))
    ensures old(db.Room(PagesOf(Now(db), c), TablesOf(Now(db), c))) ==> res != Stopped
    ensures res == Done ==> Ready(db, tables') && Step(old(Now(db)), c, answer, Now(db))
    ensures res == Done && c.Create? ==> answer.NewTable? && HasRecord(db.Db(), c.name, answer.table, c.fields)
  {
    hide Database.Valid, Database.Tuples, SchemesBelow, AllHold, Definable, Stored, SchemeFields, AllTyped, Step, Allowed, HasRecord,
         TablePages, InsertPages, RemovePages, ReplacePages, StringCount, Times, PassingKeys, UpdatePages, UpdateTables;
    tables', answer := tables, Nothing;
    OpenTable(db, tables, c);
    var ok;
    match c {
      case Create(name, fields) =>
        var t;
        ok, tables', t := ExecuteCreate(db, tables, name, fields);
        res, answer := if ok then Done else Stopped, NewTable(t);
      case Insert(t, values) =>
        var k;
        ok, k := ExecuteInsert(db, tables, t, values);
        res, answer := if ok then Done else Stopped, NewRow(k);
      case Remove(t, k) =>
        res := ExecuteRemove(db, tables, t, k);
      case Replace(t, k, values) =>
        res := ExecuteReplace(db, tables, t, k, values);
      case SelectAll(t, cond) =>
        var keys, rows;
        ok, keys, rows := ExecuteSelect(db, tables, t, cond);
        res, answer := if ok then Done else Stopped, Rows(keys, rows);
      case DeleteAll(t, cond) =>
        var keys;
        ok, keys := ExecuteDelete(db, tables, t, cond);
        res, answer := if ok then Done else Stopped, Changed(keys);
      case UpdateAll(t, cond, g) =>
        var keys;
        ok, keys := ExecuteUpdate(db, tables, t, cond, g);
        res, answer := if ok then Done else Stopped, Changed(keys);
    }
  }

  lemma OpenTable(db: Database, tables: map<nat, Fields>, c: Command)
    requires Ready(db, tables) && Allowed(Now(db), c)
    ensures !c.Create? ==> c.table in tables && FieldsOf(Now(db), c.table) == tables[c.table]
  {
    hide Database.Valid, Database.Tuples, SchemesBelow, AllHold, SchemeFields, AllTyped, Within, Keeps;
  }

  /**
   * A run of any client, which chooses each command from the answers so far. The client tables
   * change step by step as a finite map does. The run completes, with every page of the file
   * accounted for, or it gets as far as a command that names a row that is not there, or as a command
   * with which the bounds of all commands together reach the limits of the format.
   */
  method Run(db: Database, tables: map<nat, Fields>, client: Client, n: nat)
    returns (res: Outcome, tables': map<nat, Fields>, answers: seq<Answer>, ghost path: seq<State>)
    requires Ready(db, tables) && AlwaysAllowed(Now(db), client, n)
    modifies db`heaps, db`schemes, db`uses, db.st
    ensures |answers| <= n && From(old(Now(db)), client, path, answers)
    ensures res == Done <==> |answers| == n
    ensures res == Done ==> Ready(db, tables') && path[n] == Now(db) && Accounted(db.st.V()) && InFile(db)
    ensures res == Done ==> db.GrewBy(PathPages(client, path, answers), PathTables(client, path, answers))
    ensures res == Panicked <==> |answers| < n && !Present(path[|answers|], client(answers))
    ensures res == Stopped ==> |answers| < n && db.AtLimit()
    ensures res == Stopped ==>
      || old(db.st.pagesNumber) + PathPages(client, path, answers) + PagesOf(path[|answers|], client(answers)) >= 0x1_0000
      || old(db.st.tablesNumber) + PathTables(client, path, answers) + TablesOf(path[|answers|], client(answers)) >= 0xFFFF
  {
    hide Database.Valid, Database.Tuples, SchemesBelow, Step, Accounted, InFile, SchemeFields, Allowed, Present,
         AllTyped, PagesOf, TablesOf, PathPages, PathTables, Path;
    ghost var was := Now(db);
    res, tables', answers, path := Done, tables, [], [was];
    NoSteps(client, was);
    while |answers| < n
      invariant |path| == |answers| + 1 && |answers| <= n && path[0] == was && path[|answers|] == Now(db)
      invariant res == Done && Ready(db, tables') && Path(client, path, answers)
      invariant db.GrewBy(PathPages(client, path, answers), PathTables(client, path, answers))
    {
      assert From(was, client, path, answers);
      var answer;
      res, tables', answer := Execute(db, tables', client(answers));
      if res != Done {
        return;
      }
      Longer(client, path, answers, answer, Now(db));
      answers, path := answers + [answer], path + [Now(db)];
    }
    ValidAccounts(db);
    ValidOnBytes(db);
  }
}
