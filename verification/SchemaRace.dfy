/**
 Several handlers at once: preparing a table is a critical section of many statements, the upsert that follows is
 outside it. Each step is one statement (or taking or releasing the mutex), and the handlers interleave freely.
 */
module SchemaRace {
  import opened Basics
  import opened MySqlSink
  import opened MySqlPersister

  /** Where a handler is: outside the mutex, inside it before its CREATE or its first ALTER, inside the ALTER loop with
   the columns it read and the fields to go, past the mutex, or finished: with its row written, because one of its
   statements was wrong, or because the server or the connection failed it. */
  datatype Progress =
    | Waiting
    | Creating
    | Checking(existing: set<string>)
    | Altering(existing: set<string>, todo: set<string>)
    | Prepared
    | Written
    | Failed
    | Broken

  datatype Handler = Handler(msg: Message, at: Progress)

  datatype System = System(db: Database, holder: Option<nat>, handlers: map<nat, Handler>)

  datatype Step =
    | Arrive(id: nat, msg: Message)
    | Lock(id: nat)
    | Create(id: nat)
    | Recollect(id: nat)
    | Alter(id: nat, field: string)
    | Unlock(id: nat)
    | Upsert(id: nat)
    | Break(id: nat)

  function At(s: System, id: nat): Progress {
    if id in s.handlers then s.handlers[id].at else Failed
  }

  ghost predicate Enabled(s: System, step: Step) {
    match step
    case Arrive(id, msg) => id !in s.handlers && Accepted(msg)
    case Lock(id) => At(s, id).Waiting? && s.holder.None?
    case Create(id) => At(s, id).Creating?
    case Recollect(id) => At(s, id).Checking?
    case Alter(id, field) => At(s, id).Altering? && field in At(s, id).todo && field in s.handlers[id].msg.structure
    case Unlock(id) => At(s, id).Altering? && At(s, id).todo == {}
    case Upsert(id) => At(s, id).Prepared?
    case Break(id) => id in s.handlers && !At(s, id).Failed? && !At(s, id).Broken?
  }

  function Moved(s: System, id: nat, to: Progress): System
    requires id in s.handlers
  {
    s.(handlers := s.handlers[id := s.handlers[id].(at := to)])
  }

  /** A failed statement ends the handler and, through the deferred unlock, the critical section. */
  function Aborted(s: System, id: nat): System
    requires id in s.handlers
  {
    Moved(s, id, Failed).(holder := None)
  }

  /** The lock is taken and the table's columns are read. */
  function Locked(s: System, id: nat): System
    requires id in s.handlers
  {
    var name := TableOf(s.handlers[id].msg);
    Moved(s, id, if name in s.db then Checking(s.db[name].columns.Keys) else Creating).(holder := Some(id))
  }

  ghost function Created(s: System, id: nat): System
    requires id in s.handlers
  {
    var msg := s.handlers[id].msg;
    if TableOf(msg) in s.db then Moved(s, id, Prepared).(holder := None)
    else if !Clean(msg.structure) then Aborted(s, id)
    else Moved(s, id, Prepared).(db := WithColumns(s.db, TableOf(msg), Types(msg.structure)), holder := None)
  }

  function Added(s: System, id: nat, col: string, ty: SqlType, next: Progress): System
    requires id in s.handlers
  {
    match AlterAddColumn(s.db, TableOf(s.handlers[id].msg), col, ty)
    case None => Aborted(s, id)
    case Some(db) => Moved(s, id, next).(db := db)
  }

  function Recollected(s: System, id: nat, existing: set<string>): System
    requires id in s.handlers
  {
    var next := Altering(existing + {RECOLLECT}, s.handlers[id].msg.structure.Keys);
    if RECOLLECT in existing then Moved(s, id, next) else Added(s, id, RECOLLECT, LongText, next)
  }

  function Altered(s: System, id: nat, existing: set<string>, todo: set<string>, field: string): System
    requires id in s.handlers && field in s.handlers[id].msg.structure
  {
    var next := Altering(existing, todo - {field});
    if !Stored(field) || EntityColumnName(field) in existing then Moved(s, id, next)
    else Added(s, id, EntityColumnName(field), TypeFor(s.handlers[id].msg.structure[field]), next)
  }

  ghost function Upserted(s: System, id: nat): System
    requires id in s.handlers
  {
    var msg := s.handlers[id].msg;
    if !CanUpsert(s.db, msg) then Moved(s, id, Failed)
    else
      var name := TableOf(msg);
      Moved(s, id, Written).(db := s.db[name := WriteRow(s.db[name], msg.meta.hashValue, Writes(msg))])
  }

  /** A statement is reported as failed, before it or after it took effect: the handler ends. */
  function Broke(s: System, id: nat): System
    requires id in s.handlers
  {
    Moved(s, id, Broken).(holder := if s.holder == Some(id) then None else s.holder)
  }

  ghost function Next(s: System, step: Step): System
    requires Enabled(s, step)
  {
    match step
    case Arrive(id, msg) => s.(handlers := s.handlers[id := Handler(msg, Waiting)])
    case Lock(id) => Locked(s, id)
    case Create(id) => Created(s, id)
    case Recollect(id) => Recollected(s, id, At(s, id).existing)
    case Alter(id, field) => Altered(s, id, At(s, id).existing, At(s, id).todo, field)
    case Unlock(id) => Moved(s, id, Prepared).(holder := None)
    case Upsert(id) => Upserted(s, id)
    case Break(id) => Broke(s, id)
  }

  /** The upsert names each column once and every one of them exists. */
  ghost predicate CanUpsert(db: Database, msg: Message) {
    && Clean(msg.structure) && TableOf(msg) in db
    && Types(msg.structure).Keys <= Columns(db, TableOf(msg)).Keys
  }

  ghost predicate InSection(at: Progress) {
    at.Creating? || at.Checking? || at.Altering?
  }

  /** What the database promises a handler at each point of its work. */
  ghost predicate Promised(db: Database, h: Handler) {
    var name := TableOf(h.msg);
    var columns := Columns(db, name).Keys;
    && Accepted(h.msg)
    && match h.at
       case Waiting => true
       case Creating => name !in db
       case Checking(existing) => name in db && columns == existing
       case Altering(existing, todo) =>
         && name in db && RECOLLECT in columns && existing <= columns && todo <= h.msg.structure.Keys
         && (forall f :: f in h.msg.structure.Keys - todo && Stored(f) ==> EntityColumnName(f) in columns)
         && (forall f :: f in todo && Stored(f) && EntityColumnName(f) in columns ==> EntityColumnName(f) in existing)
       case Prepared => CanUpsert(db, h.msg)
       case Written => CanUpsert(db, h.msg) && h.msg.meta.hashValue in Hashes(db, name)
       case Failed => false
       case Broken => true
  }

  ghost predicate Safe(s: System) {
    && ValidDatabase(s.db)
    && (forall id :: id in s.handlers ==> Promised(s.db, s.handlers[id]))
    && Exclusive(s)
  }

  /** Whoever holds the mutex is the one handler in the critical section. */
  ghost predicate Exclusive(s: System) {
    && (forall id :: id in s.handlers ==> (InSection(s.handlers[id].at) <==> s.holder == Some(id)))
    && (s.holder.Some? ==> s.holder.value in s.handlers)
  }

  /** Every column and row of `a` is still in `b`, with the same type. */
  ghost predicate Grown(a: Database, b: Database) {
    && a.Keys <= b.Keys
    && (forall n, c :: c in Columns(a, n) ==> c in Columns(b, n) && Columns(b, n)[c] == Columns(a, n)[c])
    && (forall n :: Hashes(a, n) <= Hashes(b, n))
  }

  /** A handler outside the critical section does not mind the database growing; one inside does not mind new rows. */
  lemma GrowthKeepsPromise(a: Database, b: Database, h: Handler)
    requires Grown(a, b) && Promised(a, h)
    requires !InSection(h.at) || SameColumns(a, b)
    ensures Promised(b, h)
  {
    hide Accepted, EnvelopeOk, Clean, Types, TableOf, Columns, Hashes, EntityColumnName;
  }

  /** One successful ALTER: the database grows by that column. */
  lemma AlterGrows(db: Database, name: string, col: string, ty: SqlType)
    requires ValidDatabase(db) && name in db && col !in Columns(db, name)
    ensures AlterAddColumn(db, name, col, ty).Some?
    ensures var db' := AlterAddColumn(db, name, col, ty).value;
      && ValidDatabase(db') && Grown(db, db') && name in db'
      && Columns(db', name).Keys == Columns(db, name).Keys + {col}
  {
    hide FIXED_TYPES, RECOLLECT;
    assert ValidTable(db[name]);
    assert AlterAddColumn(db, name, col, ty) == Some(WithColumns(db, name, map[col := ty]));
    BaseKept(db[name].columns.Keys, map[col := ty].Keys + Columns(db, name).Keys);
    WithColumnsView(db, name, map[col := ty]);
  }

  lemma BaseKept(columns: set<string>, more: set<string>)
    requires HasBaseColumns(columns) && columns <= more
    ensures HasBaseColumns(more)
  {
  }

  lemma CreateGrows(db: Database, msg: Message)
    requires ValidDatabase(db) && Accepted(msg) && TableOf(msg) !in db
    ensures var db' := WithColumns(db, TableOf(msg), Types(msg.structure));
      ValidDatabase(db') && Grown(db, db') && CanUpsert(db', msg)
  {
    hide EnvelopeOk, Clean, TableOf, Types, WithColumns, Columns, Hashes, Cell, HasBaseColumns;
    TypesBase(msg.structure);
    BaseKept(Types(msg.structure).Keys, Types(msg.structure).Keys + Columns(db, TableOf(msg)).Keys);
    WithColumnsView(db, TableOf(msg), Types(msg.structure));
    NoColumnsYet(db, TableOf(msg));
    TableThere(db, TableOf(msg), Types(msg.structure));
  }

  lemma TableThere(db: Database, name: string, types: map<string, SqlType>)
    ensures WithColumns(db, name, types).Keys == db.Keys + {name}
  {
  }

  lemma TypesBase(structure: map<string, string>)
    requires Clean(structure)
    ensures HasBaseColumns(Types(structure).Keys)
  {
    hide EntityColumnName;
  }

  /** What a step of handler `id` may do to the system. */
  ghost predicate GoodStep(s: System, id: nat, s': System) {
    && ValidDatabase(s'.db) && Grown(s.db, s'.db)
    && id in s'.handlers && s'.handlers == s.handlers[id := s'.handlers[id]] && Promised(s'.db, s'.handlers[id])
    && (InSection(s'.handlers[id].at) <==> s'.holder == Some(id))
    && (s'.holder == s.holder || (s.holder in {None, Some(id)} && s'.holder in {None, Some(id)}))
    && (s'.db == s.db || s.holder == Some(id) || SameColumns(s.db, s'.db))
  }

  ghost predicate SameColumns(a: Database, b: Database) {
    a.Keys == b.Keys && forall n :: Columns(a, n) == Columns(b, n)
  }

  lemma GoodStepSafe(s: System, id: nat, s': System)
    requires Safe(s) && GoodStep(s, id, s')
    ensures Safe(s')
  {
    hide Promised, Grown, ValidDatabase, SameColumns, InSection;
    forall other | other in s'.handlers
      ensures Promised(s'.db, s'.handlers[other])
    {
      if other != id && s'.db != s.db {
        GrowthKeepsPromise(s.db, s'.db, s.handlers[other]);
      }
    }
  }

  lemma GrownReflexive(db: Database)
    ensures Grown(db, db)
  {
  }

  lemma ArriveStep(s: System, id: nat, msg: Message)
    requires Safe(s) && Enabled(s, Arrive(id, msg))
    ensures GoodStep(s, id, Next(s, Arrive(id, msg)))
  {
    hide Accepted, TableOf, EntityColumnName, ValidDatabase, Grown, Columns;
    GrownReflexive(s.db);
  }

  lemma LockStep(s: System, id: nat)
    requires Safe(s) && id in s.handlers && s.handlers[id].at.Waiting? && s.holder.None?
    ensures GoodStep(s, id, Locked(s, id))
  {
    hide Accepted, TableOf, EntityColumnName, ValidDatabase, CanUpsert, Grown;
    GrownReflexive(s.db);
    assert Promised(s.db, s.handlers[id]);
  }

  lemma CreateStep(s: System, id: nat)
    requires Safe(s) && id in s.handlers && s.handlers[id].at.Creating?
    ensures GoodStep(s, id, Created(s, id))
  {
    hide EnvelopeOk, Clean, TableOf, Types, EntityColumnName, ValidDatabase, CanUpsert, Grown, WithColumns;
    assert Promised(s.db, s.handlers[id]);
    CreateGrows(s.db, s.handlers[id].msg);
  }

  lemma RecollectStep(s: System, id: nat)
    requires Safe(s) && id in s.handlers && s.handlers[id].at.Checking?
    ensures GoodStep(s, id, Recollected(s, id, s.handlers[id].at.existing))
  {
    hide Accepted, TableOf, EntityColumnName, ValidDatabase, CanUpsert, AlterAddColumn, RECOLLECT, Columns, Grown;
    assert Promised(s.db, s.handlers[id]);
    GrownReflexive(s.db);
    if RECOLLECT !in s.handlers[id].at.existing {
      AlterGrows(s.db, TableOf(s.handlers[id].msg), RECOLLECT, LongText);
    }
  }

  lemma AlterStep(s: System, id: nat, field: string)
    requires Safe(s) && id in s.handlers && s.handlers[id].at.Altering? && field in s.handlers[id].at.todo
    requires field in s.handlers[id].msg.structure
    ensures GoodStep(s, id, Altered(s, id, s.handlers[id].at.existing, s.handlers[id].at.todo, field))
  {
    hide EnvelopeOk, TableOf, EntityColumnName, ValidDatabase, CanUpsert, AlterAddColumn, RECOLLECT, FIXED_TYPES;
    hide Columns, Grown;
    var h := s.handlers[id];
    assert Promised(s.db, h);
    GrownReflexive(s.db);
    if Stored(field) && EntityColumnName(field) !in h.at.existing {
      AlterGrows(s.db, TableOf(h.msg), EntityColumnName(field), TypeFor(h.msg.structure[field]));
    }
  }

  lemma UnlockStep(s: System, id: nat)
    requires Safe(s) && id in s.handlers && s.handlers[id].at.Altering? && s.handlers[id].at.todo == {}
    ensures GoodStep(s, id, Moved(s, id, Prepared).(holder := None))
  {
    hide EnvelopeOk, TableOf, EntityColumnName, Clean, Types, ValidDatabase, RECOLLECT, Grown, Columns;
    var h := s.handlers[id];
    assert Promised(s.db, h);
    GrownReflexive(s.db);
    AllTypesThere(s.db, TableOf(h.msg), h.msg.structure);
  }

  lemma AllTypesThere(db: Database, name: string, structure: map<string, string>)
    requires ValidDatabase(db) && name in db && Clean(structure) && RECOLLECT in Columns(db, name)
    requires forall f :: f in structure && Stored(f) ==> EntityColumnName(f) in Columns(db, name)
    ensures Types(structure).Keys <= Columns(db, name).Keys
  {
    hide EntityColumnName, Clean, Types, FIXED_TYPES, RECOLLECT, HasBaseColumns;
    assert ValidTable(db[name]);
    BaseColumns(Columns(db, name).Keys);
    ReadyCovers(Columns(db, name).Keys, structure);
  }

  lemma UpsertStep(s: System, id: nat)
    requires Safe(s) && id in s.handlers && s.handlers[id].at.Prepared?
    ensures GoodStep(s, id, Upserted(s, id))
  {
    hide EnvelopeOk, TableOf, EntityColumnName, Clean, Types, Writes, WriteRow, HasBaseColumns, Cell;
    var msg := s.handlers[id].msg;
    assert Promised(s.db, s.handlers[id]);
    WritesHaveColumns(msg);
    WriteRowView(s.db, TableOf(msg), msg.meta.hashValue, Writes(msg));
  }

  lemma BreakStep(s: System, id: nat)
    requires Safe(s) && Enabled(s, Break(id))
    ensures GoodStep(s, id, Broke(s, id))
  {
    hide Accepted, TableOf, EntityColumnName, ValidDatabase, CanUpsert, Grown, Columns;
    GrownReflexive(s.db);
    assert Promised(s.db, s.handlers[id]);
  }

  /** Every statement of every handler keeps the system safe, and the database only grows. */
  lemma StepSafe(s: System, step: Step)
    requires Safe(s) && Enabled(s, step)
    ensures Safe(Next(s, step)) && Grown(s.db, Next(s, step).db)
  {
    hide GoodStep, Safe, Grown, Accepted, Locked, Created, Recollected, Altered, Upserted, Broke;
    match step {
      case Arrive(id, msg) => ArriveStep(s, id, msg);
      case Lock(id) => LockStep(s, id);
      case Create(id) => CreateStep(s, id);
      case Recollect(id) => RecollectStep(s, id);
      case Alter(id, field) => AlterStep(s, id, field);
      case Unlock(id) => UnlockStep(s, id);
      case Upsert(id) => UpsertStep(s, id);
      case Break(id) => BreakStep(s, id);
    }
    GoodStepSafe(s, step.id, Next(s, step));
    GoodStepGrows(s, step.id, Next(s, step));
  }

  lemma GoodStepGrows(s: System, id: nat, s': System)
    requires GoodStep(s, id, s')
    ensures Grown(s.db, s'.db)
  {
  }

  /******* Runs *******/

  ghost function After(init: Database, run: seq<Step>): Option<System> {
    if run == [] then Some(System(init, None, map[]))
    else
      match After(init, run[..|run| - 1])
      case None => None
      case Some(s) => if Enabled(s, run[|run| - 1]) then Some(Next(s, run[|run| - 1])) else None
  }

  lemma {:induction false} RunSafe(init: Database, run: seq<Step>)
    requires ValidDatabase(init) && After(init, run).Some?
    ensures Safe(After(init, run).value)
  {
    hide Safe, Enabled, Next;
    if run == [] {
      StartSafe(init);
    } else {
      RunSafe(init, run[..|run| - 1]);
      StepSafe(After(init, run[..|run| - 1]).value, run[|run| - 1]);
    }
  }

  lemma StartSafe(init: Database)
    requires ValidDatabase(init)
    ensures Safe(System(init, None, map[]))
  {
  }

  /******* The guards are those of the statements *******/

  /** In any order of the fields, the CREATE TABLE of a handler fails exactly when its step does, and has its effect. */
  lemma CreatedByStatement(s: System, id: nat, cols: seq<(string, SqlType)>, order: seq<string>)
    requires id in s.handlers && CreateColumns(cols, order, s.handlers[id].msg.structure)
    ensures
      match CreateIfMissing(s.db, TableOf(s.handlers[id].msg), cols)
      case None => Created(s, id) == Aborted(s, id)
      case Some(db) => Created(s, id) == Moved(s, id, Prepared).(db := db, holder := None)
  {
    hide EnvelopeOk, Clean, TableOf, Types, WithColumns, CreateColumns;
    var msg := s.handlers[id].msg;
    if TableOf(msg) !in s.db {
      CreateStatement(s.db, TableOf(msg), cols, order, msg.structure);
    }
  }

  lemma NamedAreTypes(columns: seq<string>, order: seq<string>, structure: map<string, string>, c: string)
    requires Clean(structure) && Enumerates(order, structure.Keys) && NamesFrom(columns, FIXED_COLUMNS, order)
    requires c in Types(structure)
    ensures c in columns
  {
    hide EntityColumnName, FIXED_TYPES, FIXED_COLUMNS;
    FixedColumnsAreFixedTypes();
    if c in FIXED_TYPES {
      assert c in columns[..|FIXED_COLUMNS|];
    } else {
      var f :| f in structure && Stored(f) && EntityColumnName(f) == c;
      var k :| 0 <= k < |order| && order[k] == f;
      assert columns[|FIXED_COLUMNS| + k] == c;
    }
  }

  /** In any order of the fields, the upsert of a handler fails exactly when its step does, and has its effect. */
  lemma UpsertedByStatement(s: System, id: nat, columns: seq<string>, values: seq<Value>, order: seq<string>)
    requires id in s.handlers && ValidDatabase(s.db) && UpsertColumns(columns, values, order, s.handlers[id].msg)
    ensures |columns| == |values| > 0 && values[0].Str?
    ensures
      match InsertOrUpdate(s.db, TableOf(s.handlers[id].msg), columns, values)
      case None => Upserted(s, id) == Moved(s, id, Failed)
      case Some(db) => Upserted(s, id) == Moved(s, id, Written).(db := db)
  {
    hide EnvelopeOk, Clean, TableOf, Types, Writes, WriteRow, EntityColumnName, FIXED_COLUMNS, FIXED_TYPES, ValuesFrom;
    hide ValidDatabase;
    var msg := s.handlers[id].msg;
    UpsertShape(columns, values, order, msg);
    DistinctIffClean(columns, order, msg.structure);
    if CanUpsert(s.db, msg) {
      UpsertReady(s.db, msg);
      UpsertStatement(s.db, TableOf(msg), columns, values, order, msg);
    } else if Clean(msg.structure) && TableOf(msg) in s.db {
      var c :| c in Types(msg.structure) && c !in Columns(s.db, TableOf(msg));
      NamedAreTypes(columns, order, msg.structure, c);
    }
  }

  lemma UpsertReady(db: Database, msg: Message)
    requires CanUpsert(db, msg)
    ensures ColumnsReady(db[TableOf(msg)].columns.Keys, msg.structure)
  {
    hide EntityColumnName;
    TypesReady(msg.structure);
  }

  /** In whatever order the fields are visited, the upsert of the message succeeds. */
  ghost predicate UpsertSucceeds(db: Database, msg: Message) {
    forall columns, values: seq<Value>, order :: UpsertColumns(columns, values, order, msg) ==>
      && |columns| == |values| > 0 && values[0].Str?
      && InsertOrUpdate(db, TableOf(msg), columns, values).Some?
  }

  lemma PreparedSucceeds(s: System, id: nat)
    requires id in s.handlers && ValidDatabase(s.db) && CanUpsert(s.db, s.handlers[id].msg)
    ensures UpsertSucceeds(s.db, s.handlers[id].msg)
  {
    hide CanUpsert, UpsertColumns, InsertOrUpdate, TableOf, ValidDatabase;
    var msg := s.handlers[id].msg;
    assert Upserted(s, id).handlers[id].at == Written != Moved(s, id, Failed).handlers[id].at;
    forall columns, values: seq<Value>, order | UpsertColumns(columns, values, order, msg)
      ensures |columns| == |values| > 0 && values[0].Str?
      ensures InsertOrUpdate(s.db, TableOf(msg), columns, values).Some?
    {
      UpsertedByStatement(s, id, columns, values, order);
    }
  }

  /**
   No interleaving makes a statement fail, whichever handlers the server fails besides: no handler ends because a
   statement of its own was wrong; one that has left the critical section finds every column its upsert names, so that
   the upsert, in any order of the fields, succeeds; and one that has written finds its row.
   */
  lemma NoStatementFails(init: Database, run: seq<Step>, id: nat)
    requires ValidDatabase(init) && After(init, run).Some? && id in After(init, run).value.handlers
    ensures var s := After(init, run).value; var h := s.handlers[id];
      && !h.at.Failed?
      && (h.at.Prepared? ==> CanUpsert(s.db, h.msg) && UpsertSucceeds(s.db, h.msg))
      && (h.at.Written? ==> h.msg.meta.hashValue in Hashes(s.db, TableOf(h.msg)))
  {
    hide CanUpsert, Accepted, EntityColumnName, UpsertSucceeds, TableOf, ValidDatabase, Hashes;
    RunSafe(init, run);
    var s := After(init, run).value;
    assert Promised(s.db, s.handlers[id]);
    if s.handlers[id].at.Prepared? {
      PreparedSucceeds(s, id);
    }
  }

  /** Columns, their types and rows are only ever added. */
  lemma {:induction false} SchemaOnlyGrows(init: Database, run: seq<Step>, k: nat)
    requires ValidDatabase(init) && After(init, run).Some? && k <= |run|
    ensures After(init, run[..k]).Some? && Grown(After(init, run[..k]).value.db, After(init, run).value.db)
  {
    hide Enabled, Next, Safe;
    if k == |run| {
      assert run[..k] == run;
    } else {
      var most := run[..|run| - 1];
      SchemaOnlyGrows(init, most, k);
      assert most[..k] == run[..k];
      RunSafe(init, most);
      StepSafe(After(init, most).value, run[|run| - 1]);
      GrownTransitive(
        After(init, run[..k]).value.db, After(init, most).value.db, After(init, run).value.db);
    }
  }

  lemma GrownTransitive(a: Database, b: Database, c: Database)
    requires Grown(a, b) && Grown(b, c)
    ensures Grown(a, c)
  {
    hide Columns, Hashes;
  }
}
