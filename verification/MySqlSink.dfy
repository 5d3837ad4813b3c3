/**
 persister-mysql: one table per entity type, whose columns grow with the entities seen, and one row per source
 hash, overwritten column by column.

 A database is a value here and every SQL statement a function on it; the persister is the object that runs the
 statements. The two time stamps the server itself maintains (created_at, updated_at) are not part of the value.
 */
module MySqlSink {
  import opened Basics
  import opened Text

  /******* Entity messages *******/

  datatype Value = Null | Str(s: string) | Int(i: int) | Float(r: real) | Bool(b: bool)

  datatype Metadata = Metadata(
    hashValue: string, uniqueId: string, collectorType: string, system: string,
    observedMs: int, recollectSpec: Option<string>, entityType: string)

  /** `structure` maps a field name to its declared type; `values` may lack a field, which then reads as null. */
  datatype Message = Message(
    kind: string, schemaVersion: string, meta: Metadata,
    structure: map<string, string>, values: map<string, Value>)

  function FieldValue(msg: Message, field: string): Value {
    if field in msg.values then msg.values[field] else Null
  }

  /******* Names *******/

  const RESERVED_COLUMNS: set<string> := {"created_at", "updated_at"}

  predicate IsIdentifierChar(c: char) {
    'a' <= c <= 'z' || '0' <= c <= '9' || c == '_'
  }

  function DashesToUnderscores(s: string): string {
    seq(|s|, i requires 0 <= i < |s| => if s[i] == '-' then '_' else s[i])
  }

  function SinkTableName(entityType: string): string {
    var base := Filter(IsIdentifierChar, ToLower(Trim(entityType)));
    if base == "" then "" else base + "s"
  }

  function SafeColumnName(name: string): string {
    Filter(IsIdentifierChar, DashesToUnderscores(ToLower(Trim(name))))
  }

  /** The column a field is stored in; empty when the field is not stored at all. */
  function EntityColumnName(field: string): string {
    var col := SafeColumnName(field);
    if col == "" || col in RESERVED_COLUMNS then "" else col
  }

  lemma ColumnNamesAreIdentifiers(field: string)
    ensures forall c :: c in EntityColumnName(field) ==> IsIdentifierChar(c)
    ensures EntityColumnName(field) !in RESERVED_COLUMNS
  {
    forall c | c in EntityColumnName(field)
      ensures IsIdentifierChar(c)
    {
      FilterKeeps(IsIdentifierChar, DashesToUnderscores(ToLower(Trim(field))), c);
    }
    assert "" !in RESERVED_COLUMNS;
  }

  /******* Tables and statements *******/

  datatype SqlType = Char64 | Varchar255 | BigInt | Double | Boolean | LongText

  function TypeFor(declared: string): SqlType {
    if declared == "int64" then BigInt
    else if declared == "float64" then Double
    else if declared == "bool" then Boolean
    else LongText
  }

  type Row = map<string, Value>

  datatype Table = Table(columns: map<string, SqlType>, rows: map<string, Row>)

  type Database = map<string, Table>

  const HASH := "source_hash_value"
  const RECOLLECT := "recollect_spec"
  const FIXED_COLUMNS: seq<string> :=
    [HASH, "source_unique_id", "source_collector_type", "source_system", "observed_unix_ms", RECOLLECT]
  const FIXED_TYPES: map<string, SqlType> :=
    map[HASH := Char64, "source_unique_id" := LongText, "source_collector_type" := Varchar255,
        "source_system" := Varchar255, "observed_unix_ms" := BigInt, RECOLLECT := LongText]

  /** Every row has exactly the columns of its table. */
  ghost predicate RowsComplete(t: Table) {
    forall h :: h in t.rows ==> t.rows[h].Keys == t.columns.Keys
  }

  /** The columns that were never optional. */
  ghost predicate HasBaseColumns(columns: set<string>) {
    FIXED_TYPES.Keys - {RECOLLECT} <= columns
  }

  ghost predicate ValidTable(t: Table) {
    HasBaseColumns(t.columns.Keys) && RowsComplete(t)
  }

  ghost predicate ValidDatabase(db: Database) {
    forall name :: name in db ==> ValidTable(db[name])
  }

  function ExtendRow(row: Row, columns: set<string>): Row {
    map c | c in columns :: if c in row then row[c] else Null
  }

  /** Adds those of `types` that `t` lacks; existing rows hold null there. */
  function AddColumns(t: Table, types: map<string, SqlType>): Table {
    var columns := types + t.columns;
    Table(columns, map h | h in t.rows :: ExtendRow(t.rows[h], columns.Keys))
  }

  /** ALTER TABLE name ADD COLUMN col ty NULL; an error when the table is missing or has the column already. */
  function AlterAddColumn(db: Database, name: string, col: string, ty: SqlType): Option<Database> {
    if name !in db || col in db[name].columns then None
    else Some(db[name := AddColumns(db[name], map[col := ty])])
  }

  /** The map from each name to its value; a later entry replaces an earlier one of the same name. */
  function PairMap<T>(names: seq<string>, values: seq<T>): map<string, T>
    requires |names| == |values|
  {
    if names == [] then map[]
    else
      var n := |names| - 1;
      PairMap(names[..n], values[..n])[names[n] := values[n]]
  }

  predicate DistinctNames(names: seq<string>) {
    forall i, j | 0 <= i < j < |names| :: names[i] != names[j]
  }

  function NamesOf(cols: seq<(string, SqlType)>): seq<string> {
    seq(|cols|, i requires 0 <= i < |cols| => cols[i].0)
  }

  function TypesOf(cols: seq<(string, SqlType)>): seq<SqlType> {
    seq(|cols|, i requires 0 <= i < |cols| => cols[i].1)
  }

  /** CREATE TABLE IF NOT EXISTS; an error when a column is named twice. */
  function CreateIfMissing(db: Database, name: string, cols: seq<(string, SqlType)>): Option<Database> {
    if name in db then Some(db)
    else if !DistinctNames(NamesOf(cols)) then None
    else Some(db[name := Table(PairMap(NamesOf(cols), TypesOf(cols)), map[])])
  }

  /** The row with `writes` applied: a new row is null elsewhere, an existing one is unchanged elsewhere. */
  function WriteRow(t: Table, hash: string, writes: Row): Table {
    var row: Row := map c | c in t.columns ::
      if c in writes then writes[c] else if hash in t.rows && c in t.rows[hash] then t.rows[hash][c] else Null;
    t.(rows := t.rows[hash := row])
  }

  /**
   INSERT ... ON DUPLICATE KEY UPDATE of every named column, keyed by the source hash, which is always the first;
   an error when a column is named twice or does not exist.
   */
  function InsertOrUpdate(db: Database, name: string, columns: seq<string>, values: seq<Value>): Option<Database>
    requires |columns| == |values| > 0 && values[0].Str?
  {
    if name !in db || !DistinctNames(columns) || !(forall c | c in columns :: c in db[name].columns) then None
    else Some(db[name := WriteRow(db[name], values[0].s, PairMap(columns, values))])
  }

  /******* What one message does *******/

  predicate Stored(field: string) {
    EntityColumnName(field) != ""
  }

  /** No two stored fields share a column, and none takes one of the six the persister fills itself. */
  ghost predicate Clean(structure: map<string, string>) {
    && (forall f :: f in structure && Stored(f) ==> EntityColumnName(f) !in FIXED_TYPES)
    && (forall f, g :: f in structure && g in structure && Stored(f) && f != g ==>
          EntityColumnName(f) != EntityColumnName(g))
  }

  ghost function FieldTypes(structure: map<string, string>): map<string, SqlType>
    requires Clean(structure)
  {
    map f | f in structure && Stored(f) :: EntityColumnName(f) := TypeFor(structure[f])
  }

  ghost function FieldWrites(msg: Message): Row
    requires Clean(msg.structure)
  {
    map f | f in msg.structure && Stored(f) :: EntityColumnName(f) := FieldValue(msg, f)
  }

  function FixedValues(meta: Metadata): (r: seq<Value>)
    ensures |r| == |FIXED_COLUMNS| && r[0].Str?
  {
    [Str(meta.hashValue), Str(meta.uniqueId), Str(meta.collectorType), Str(meta.system), Int(meta.observedMs),
     match meta.recollectSpec case Some(spec) => Str(spec) case None => Null]
  }

  function FixedWrites(meta: Metadata): Row {
    map[HASH := Str(meta.hashValue), "source_unique_id" := Str(meta.uniqueId),
        "source_collector_type" := Str(meta.collectorType), "source_system" := Str(meta.system),
        "observed_unix_ms" := Int(meta.observedMs),
        RECOLLECT := match meta.recollectSpec case Some(spec) => Str(spec) case None => Null]
  }

  ghost function Writes(msg: Message): Row
    requires Clean(msg.structure)
  {
    FixedWrites(msg.meta) + FieldWrites(msg)
  }

  ghost function Types(structure: map<string, string>): map<string, SqlType>
    requires Clean(structure)
  {
    FIXED_TYPES + FieldTypes(structure)
  }

  predicate EnvelopeOk(msg: Message) {
    msg.kind == "Entity" && msg.schemaVersion == "v1" && SinkTableName(msg.meta.entityType) != ""
  }

  function TableOf(msg: Message): string {
    SinkTableName(msg.meta.entityType)
  }

  /** The messages that are stored. */
  ghost predicate Accepted(msg: Message) {
    EnvelopeOk(msg) && Clean(msg.structure)
  }

  const NO_TABLE := Table(map[], map[])

  function Lookup(db: Database, name: string): Table {
    if name in db then db[name] else NO_TABLE
  }

  /** The database once the table has (some of) the columns a message needs. */
  function WithColumns(db: Database, name: string, types: map<string, SqlType>): Database {
    db[name := AddColumns(Lookup(db, name), types)]
  }

  /** The effect of storing one message. */
  ghost function Apply(db: Database, msg: Message): Database
    requires Accepted(msg)
  {
    var name := TableOf(msg);
    var ready := WithColumns(db, name, Types(msg.structure));
    ready[name := WriteRow(ready[name], msg.meta.hashValue, Writes(msg))]
  }

  /******* What a handler that fails leaves behind *******/

  /** `some` are columns the message asks an existing table for, each with the type of a field stored there. */
  ghost predicate AskedFor(some: map<string, SqlType>, structure: map<string, string>) {
    forall c :: c in some ==>
      || (c == RECOLLECT && some[c] == LongText)
      || (exists f :: f in structure && Stored(f) && EntityColumnName(f) == c && some[c] == TypeFor(structure[f]))
  }

  /**
   The database after a handler that did not get to its end, or was told that a statement failed: nothing has happened,
   or some of the missing columns were added to the table, or the table was created, or, with only the reply lost, all
   of it was done.
   */
  ghost predicate Leftover(db: Database, msg: Message, db': Database)
    requires EnvelopeOk(msg)
  {
    || db' == db
    || (TableOf(msg) in db &&
        exists some :: AskedFor(some, msg.structure) && db' == WithColumns(db, TableOf(msg), some))
    || (Clean(msg.structure) && TableOf(msg) !in db && db' == WithColumns(db, TableOf(msg), Types(msg.structure)))
    || (Clean(msg.structure) && db' == Apply(db, msg))
  }

  lemma TypeOfField(structure: map<string, string>, field: string)
    requires Clean(structure) && field in structure && Stored(field)
    ensures EntityColumnName(field) in Types(structure)
    ensures Types(structure)[EntityColumnName(field)] == TypeFor(structure[field])
  {
    hide EntityColumnName;
    assert EntityColumnName(field) in FieldTypes(structure);
  }

  /** Without clashes what the message asks for is determined by the column. */
  lemma AskedForTypes(some: map<string, SqlType>, structure: map<string, string>)
    requires Clean(structure) && AskedFor(some, structure)
    ensures forall c :: c in some ==> c in Types(structure) && some[c] == Types(structure)[c]
  {
    hide EntityColumnName;
    forall c | c in some
      ensures c in Types(structure) && some[c] == Types(structure)[c]
    {
      if f :| f in structure && Stored(f) && EntityColumnName(f) == c && some[c] == TypeFor(structure[f]) {
        TypeOfField(structure, f);
      }
    }
  }

  /******* Observations *******/

  function Columns(db: Database, name: string): map<string, SqlType> {
    Lookup(db, name).columns
  }

  function Hashes(db: Database, name: string): set<string> {
    Lookup(db, name).rows.Keys
  }

  /** The stored value of a cell; null when the row or the column does not exist. */
  function Cell(db: Database, name: string, hash: string, col: string): Value {
    var t := Lookup(db, name);
    if hash in t.rows && col in t.rows[hash] then t.rows[hash][col] else Null
  }

  /** A valid database is its columns, its row keys and its cells. */
  lemma Extensional(a: Database, b: Database)
    requires ValidDatabase(a) && ValidDatabase(b)
    requires forall n :: Columns(a, n) == Columns(b, n) && Hashes(a, n) == Hashes(b, n)
    requires forall n, h, c :: Cell(a, n, h, c) == Cell(b, n, h, c)
    ensures a == b
  {
    forall n
      ensures n in a <==> n in b
      ensures n in a ==> a[n] == b[n]
    {
      assert n in a <==> HASH in Columns(a, n);
      assert n in b <==> HASH in Columns(b, n);
      if n in a {
        forall h | h in a[n].rows
          ensures h in b[n].rows && a[n].rows[h] == b[n].rows[h]
        {
          assert h in Hashes(a, n) && h in Hashes(b, n);
          forall c | c in a[n].rows[h]
            ensures a[n].rows[h][c] == b[n].rows[h][c]
          {
            assert Cell(a, n, h, c) == Cell(b, n, h, c);
          }
        }
        assert a[n].rows.Keys == Hashes(a, n) == b[n].rows.Keys;
      }
    }
  }

  /** Adding columns touches one table, keeps the type of a column already there, and changes no row or cell. */
  lemma WithColumnsView(db: Database, name: string, types: map<string, SqlType>)
    ensures var db' := WithColumns(db, name, types);
      && Columns(db', name) == types + Columns(db, name)
      && (forall n :: n != name ==> Columns(db', n) == Columns(db, n))
      && (forall n :: Hashes(db', n) == Hashes(db, n))
    ensures ValidDatabase(db) ==>
      forall n, h, c :: Cell(WithColumns(db, name, types), n, h, c) == Cell(db, n, h, c)
    ensures ValidDatabase(db) && HasBaseColumns(types.Keys + Columns(db, name).Keys) ==>
      ValidDatabase(WithColumns(db, name, types))
  {
  }

  lemma WriteRowView(db: Database, name: string, hash: string, writes: Row)
    requires ValidDatabase(db) && name in db && writes.Keys <= db[name].columns.Keys
    ensures var db' := db[name := WriteRow(db[name], hash, writes)];
      && ValidDatabase(db')
      && (forall n :: Columns(db', n) == Columns(db, n))
      && (forall n :: Hashes(db', n) == if n == name then Hashes(db, n) + {hash} else Hashes(db, n))
      && (forall n, h, c :: Cell(db', n, h, c) ==
            if n == name && h == hash && c in writes then writes[c] else Cell(db, n, h, c))
  {
    var db' := db[name := WriteRow(db[name], hash, writes)];
    assert ValidTable(db[name]);
    assert ValidTable(db'[name]);
  }

  /** What one stored message changes: its table's columns, its row, and in that row exactly the cells it writes. */
  lemma ApplyView(db: Database, msg: Message)
    requires ValidDatabase(db) && Accepted(msg)
    ensures var db' := Apply(db, msg);
      && ValidDatabase(db')
      && (forall n :: Columns(db', n) ==
            if n == TableOf(msg) then Types(msg.structure) + Columns(db, n) else Columns(db, n))
      && (forall n :: Hashes(db', n) ==
            if n == TableOf(msg) then Hashes(db, n) + {msg.meta.hashValue} else Hashes(db, n))
      && (forall n, h, c :: Cell(db', n, h, c) ==
            if n == TableOf(msg) && h == msg.meta.hashValue && c in Writes(msg) then Writes(msg)[c]
            else Cell(db, n, h, c))
  {
    WithColumnsView(db, TableOf(msg), Types(msg.structure));
    WritesHaveColumns(msg);
    WriteRowView(WithColumns(db, TableOf(msg), Types(msg.structure)), TableOf(msg), msg.meta.hashValue, Writes(msg));
  }

  lemma WritesHaveColumns(msg: Message)
    requires Clean(msg.structure)
    ensures Writes(msg).Keys == Types(msg.structure).Keys
  {
    assert FixedWrites(msg.meta).Keys == FIXED_TYPES.Keys;
    assert FieldWrites(msg).Keys == FieldTypes(msg.structure).Keys;
  }

  lemma TypesHaveBase(structure: map<string, string>)
    requires Clean(structure)
    ensures HasBaseColumns(Types(structure).Keys)
  {
    hide EntityColumnName;
  }

  lemma TableHasBase(db: Database, name: string, types: map<string, SqlType>)
    requires ValidDatabase(db) && (name in db || HasBaseColumns(types.Keys))
    ensures HasBaseColumns(types.Keys + Columns(db, name).Keys)
  {
    assert name in db ==> ValidTable(db[name]);
  }

  /** Adding columns to a table, or creating it, keeps everything that was there. */
  lemma AddedView(db: Database, name: string, types: map<string, SqlType>)
    requires ValidDatabase(db) && (name in db || HasBaseColumns(types.Keys))
    ensures var db' := WithColumns(db, name, types);
      && ValidDatabase(db')
      && (forall n, c :: c in Columns(db, n) ==> c in Columns(db', n) && Columns(db', n)[c] == Columns(db, n)[c])
      && (forall n :: Hashes(db', n) == Hashes(db, n))
      && (forall n, h, c :: Cell(db', n, h, c) == Cell(db, n, h, c))
  {
    hide WithColumns, Columns, Hashes, Cell, HasBaseColumns, ValidDatabase;
    TableHasBase(db, name, types);
    WithColumnsView(db, name, types);
  }

  /** Whatever a failed handler leaves: nothing is lost, no foreign row appears, only cells it meant to write differ. */
  lemma LeftoverView(db: Database, msg: Message, db': Database)
    requires ValidDatabase(db) && EnvelopeOk(msg) && Leftover(db, msg, db')
    ensures ValidDatabase(db')
    ensures forall n, c :: c in Columns(db, n) ==> c in Columns(db', n) && Columns(db', n)[c] == Columns(db, n)[c]
    ensures forall n :: Hashes(db, n) <= Hashes(db', n)
    ensures forall n, h :: h in Hashes(db', n) ==>
      h in Hashes(db, n) || (Clean(msg.structure) && n == TableOf(msg) && h == msg.meta.hashValue)
    ensures forall n, h, c ::
      || Cell(db', n, h, c) == Cell(db, n, h, c)
      || (Clean(msg.structure) && n == TableOf(msg) && h == msg.meta.hashValue && c in Writes(msg))
  {
    hide EnvelopeOk, Clean, TableOf, Apply, Types, Writes, WithColumns, Columns, Hashes, Cell, HasBaseColumns;
    hide ValidDatabase, AskedFor;
    var name := TableOf(msg);
    if name in db && exists some :: AskedFor(some, msg.structure) && db' == WithColumns(db, name, some) {
      var some :| AskedFor(some, msg.structure) && db' == WithColumns(db, name, some);
      AddedView(db, name, some);
    } else if Clean(msg.structure) {
      TypesHaveBase(msg.structure);
      AddedView(db, TableOf(msg), Types(msg.structure));
      ApplyView(db, msg);
    }
  }

  /******* What is stored, field by field *******/

  lemma ColumnOfField(msg: Message, f: string)
    requires Clean(msg.structure) && f in msg.structure && EntityColumnName(f) != ""
    ensures EntityColumnName(f) in FieldWrites(msg) && EntityColumnName(f) !in FIXED_TYPES
    ensures FieldWrites(msg)[EntityColumnName(f)] == if f in msg.values then msg.values[f] else Null
  {
    hide EntityColumnName, FIXED_TYPES;
    assert Stored(f);
  }

  /** The value of every field is in the cell of its column; null if the message has none. */
  ghost predicate HoldsFields(db: Database, msg: Message) {
    forall f :: f in msg.structure && EntityColumnName(f) != "" ==>
      Cell(db, SinkTableName(msg.meta.entityType), msg.meta.hashValue, EntityColumnName(f))
        == if f in msg.values then msg.values[f] else Null
  }

  lemma FieldIsStored(db: Database, msg: Message, f: string)
    requires ValidDatabase(db) && Accepted(msg) && f in msg.structure && EntityColumnName(f) != ""
    ensures Cell(Apply(db, msg), SinkTableName(msg.meta.entityType), msg.meta.hashValue, EntityColumnName(f))
         == if f in msg.values then msg.values[f] else Null
  {
    ApplyView(db, msg);
    ColumnOfField(msg, f);
    hide EntityColumnName, Clean, Apply, Cell, FixedWrites, FieldWrites, SinkTableName, ValidDatabase;
  }

  lemma FieldsAreStored(db: Database, msg: Message)
    requires ValidDatabase(db) && Accepted(msg)
    ensures HoldsFields(Apply(db, msg), msg)
  {
    hide Apply, Cell, Accepted, EntityColumnName, SinkTableName, ValidDatabase;
    forall f | f in msg.structure && EntityColumnName(f) != ""
      ensures Cell(Apply(db, msg), SinkTableName(msg.meta.entityType), msg.meta.hashValue, EntityColumnName(f))
           == if f in msg.values then msg.values[f] else Null
    {
      FieldIsStored(db, msg, f);
    }
  }

  /** There is a row for the source hash with everything the message says of its source. */
  ghost predicate HoldsSource(db: Database, msg: Message) {
    var name, hash, m := SinkTableName(msg.meta.entityType), msg.meta.hashValue, msg.meta;
    && hash in Hashes(db, name)
    && Cell(db, name, hash, "source_hash_value") == Str(m.hashValue)
    && Cell(db, name, hash, "source_unique_id") == Str(m.uniqueId)
    && Cell(db, name, hash, "source_collector_type") == Str(m.collectorType)
    && Cell(db, name, hash, "source_system") == Str(m.system)
    && Cell(db, name, hash, "observed_unix_ms") == Int(m.observedMs)
    && Cell(db, name, hash, "recollect_spec") == if m.recollectSpec.Some? then Str(m.recollectSpec.value) else Null
  }

  lemma SourceIsStored(db: Database, msg: Message)
    requires ValidDatabase(db) && Accepted(msg)
    ensures HoldsSource(Apply(db, msg), msg)
  {
    ApplyView(db, msg);
    FixedCellsOf(msg);
    hide Clean, Apply, Cell, FixedWrites, FieldWrites, SinkTableName, ValidDatabase, Writes, Types, Hashes;
  }

  lemma FixedCellsOf(msg: Message)
    requires Clean(msg.structure)
    ensures var w, m := Writes(msg), msg.meta;
      && "source_hash_value" in w && w["source_hash_value"] == Str(m.hashValue)
      && "source_unique_id" in w && w["source_unique_id"] == Str(m.uniqueId)
      && "source_collector_type" in w && w["source_collector_type"] == Str(m.collectorType)
      && "source_system" in w && w["source_system"] == Str(m.system)
      && "observed_unix_ms" in w && w["observed_unix_ms"] == Int(m.observedMs)
      && "recollect_spec" in w
      && w["recollect_spec"] == if m.recollectSpec.Some? then Str(m.recollectSpec.value) else Null
  {
    FixedNotOverwritten(msg);
    FixedNames(msg.meta);
    hide FieldWrites, FixedWrites, Clean, FIXED_TYPES;
  }

  lemma FixedNotOverwritten(msg: Message)
    requires Clean(msg.structure)
    ensures forall c :: c in FixedWrites(msg.meta) ==> c in Writes(msg) && Writes(msg)[c] == FixedWrites(msg.meta)[c]
  {
    hide EntityColumnName, FIXED_TYPES;
    assert FixedWrites(msg.meta).Keys == FIXED_TYPES.Keys by { FixedKeys(msg.meta); }
  }

  lemma FixedKeys(meta: Metadata)
    ensures FixedWrites(meta).Keys == FIXED_TYPES.Keys
  {
  }

  lemma FixedNames(m: Metadata)
    ensures var w := FixedWrites(m);
      && "source_hash_value" in w && w["source_hash_value"] == Str(m.hashValue)
      && "source_unique_id" in w && w["source_unique_id"] == Str(m.uniqueId)
      && "source_collector_type" in w && w["source_collector_type"] == Str(m.collectorType)
      && "source_system" in w && w["source_system"] == Str(m.system)
      && "observed_unix_ms" in w && w["observed_unix_ms"] == Int(m.observedMs)
      && "recollect_spec" in w
      && w["recollect_spec"] == if m.recollectSpec.Some? then Str(m.recollectSpec.value) else Null
  {
  }

  /** A column a message adds has the type its field declares: whole numbers, floating-point numbers and booleans have
   one each, everything else is text. */
  lemma FieldTypeIs(db: Database, msg: Message, f: string)
    requires ValidDatabase(db) && Accepted(msg) && f in msg.structure && EntityColumnName(f) != ""
    requires EntityColumnName(f) !in Columns(db, SinkTableName(msg.meta.entityType))
    ensures var columns, col := Columns(Apply(db, msg), SinkTableName(msg.meta.entityType)), EntityColumnName(f);
      && col in columns
      && (columns[col] == BigInt <==> msg.structure[f] == "int64")
      && (columns[col] == Double <==> msg.structure[f] == "float64")
      && (columns[col] == Boolean <==> msg.structure[f] == "bool")
      && (columns[col] == LongText <==> msg.structure[f] !in {"int64", "float64", "bool"})
  {
    ApplyView(db, msg);
    assert Stored(f);
    TypeOfField(msg.structure, f);
    TypeNames(msg.structure[f]);
    hide EntityColumnName, Clean, Apply, Types, SinkTableName, ValidDatabase, TypeFor, Columns;
  }

  lemma TypeNames(declared: string)
    ensures var ty := TypeFor(declared);
      && (ty == BigInt <==> declared == "int64") && (ty == Double <==> declared == "float64")
      && (ty == Boolean <==> declared == "bool") && (ty == LongText <==> declared !in {"int64", "float64", "bool"})
  {
  }

  /** The six columns of the source, with their types. */
  ghost predicate HasSourceTypes(columns: map<string, SqlType>) {
    && "source_hash_value" in columns && columns["source_hash_value"] == Char64
    && "source_unique_id" in columns && columns["source_unique_id"] == LongText
    && "source_collector_type" in columns && columns["source_collector_type"] == Varchar255
    && "source_system" in columns && columns["source_system"] == Varchar255
    && "observed_unix_ms" in columns && columns["observed_unix_ms"] == BigInt
    && "recollect_spec" in columns && columns["recollect_spec"] == LongText
  }

  /** A new table has them. */
  lemma SourceTypesAre(db: Database, msg: Message)
    requires ValidDatabase(db) && Accepted(msg) && SinkTableName(msg.meta.entityType) !in db
    ensures HasSourceTypes(Columns(Apply(db, msg), SinkTableName(msg.meta.entityType)))
  {
    NewColumns(db, msg);
    hide Columns, Types, Apply, SinkTableName, HasSourceTypes, ValidDatabase, EnvelopeOk, Clean;
    FixedTypesKept(msg.structure);
    FixedTypesSpelt(Types(msg.structure));
  }

  lemma NewColumns(db: Database, msg: Message)
    requires ValidDatabase(db) && Accepted(msg) && SinkTableName(msg.meta.entityType) !in db
    ensures Columns(Apply(db, msg), SinkTableName(msg.meta.entityType)) == Types(msg.structure)
  {
    hide EnvelopeOk, Clean, Apply, Types, SinkTableName, ValidDatabase, Columns, Hashes, Cell, Writes;
    ApplyView(db, msg);
    NoColumnsYet(db, SinkTableName(msg.meta.entityType));
    assert Types(msg.structure) + map[] == Types(msg.structure);
  }

  lemma NoColumnsYet(db: Database, name: string)
    requires name !in db
    ensures Columns(db, name) == map[] && Hashes(db, name) == {}
  {
  }

  lemma FixedTypesSpelt(columns: map<string, SqlType>)
    requires forall c :: c in FIXED_TYPES ==> c in columns && columns[c] == FIXED_TYPES[c]
    ensures HasSourceTypes(columns)
  {
    hide FIXED_TYPES;
    FixedTypeNames();
  }

  lemma FixedTypesKept(structure: map<string, string>)
    requires Clean(structure)
    ensures forall c :: c in FIXED_TYPES ==> c in Types(structure) && Types(structure)[c] == FIXED_TYPES[c]
  {
    hide EntityColumnName, FIXED_TYPES;
  }

  lemma FixedTypeNames()
    ensures "source_hash_value" in FIXED_TYPES && FIXED_TYPES["source_hash_value"] == Char64
    ensures "source_unique_id" in FIXED_TYPES && FIXED_TYPES["source_unique_id"] == LongText
    ensures "source_collector_type" in FIXED_TYPES && FIXED_TYPES["source_collector_type"] == Varchar255
    ensures "source_system" in FIXED_TYPES && FIXED_TYPES["source_system"] == Varchar255
    ensures "observed_unix_ms" in FIXED_TYPES && FIXED_TYPES["observed_unix_ms"] == BigInt
    ensures "recollect_spec" in FIXED_TYPES && FIXED_TYPES["recollect_spec"] == LongText
  {
  }

  /******* What names become *******/

  /** A character that a column name keeps, as it is or in its place. */
  predicate NameChar(c: char) {
    'a' <= c <= 'z' || 'A' <= c <= 'Z' || '0' <= c <= '9' || c == '_' || c == '-'
  }

  lemma {:induction false} FilterAll(s: string)
    requires forall i :: 0 <= i < |s| ==> IsIdentifierChar(s[i])
    ensures Filter(IsIdentifierChar, s) == s
  {
    if s != [] {
      FilterAll(s[1..]);
    }
  }

  lemma TrimNameChars(name: string)
    requires forall i :: 0 <= i < |name| ==> NameChar(name[i])
    ensures Trim(name) == name
  {
    hide Trim;
    TrimOfTrimmed(name);
  }

  /** A name of letters, digits, underscores and dashes keeps its length: capitals become small, dashes underscores. */
  lemma ColumnNameOfPlain(name: string)
    requires forall i :: 0 <= i < |name| ==> NameChar(name[i])
    ensures var col := SafeColumnName(name);
      && |col| == |name|
      && forall i :: 0 <= i < |name| ==>
           col[i] == if name[i] == '-' then '_'
                     else if 'A' <= name[i] <= 'Z' then (name[i] as int + 32) as char
                     else name[i]
  {
    hide Trim, Filter;
    TrimNameChars(name);
    FilterAll(DashesToUnderscores(ToLower(name)));
  }

  /** A table is named like its type, in small letters, with an s behind. */
  lemma TableNameOfPlain(entityType: string)
    requires entityType != "" && forall i :: 0 <= i < |entityType| ==> NameChar(entityType[i]) && entityType[i] != '-'
    ensures var name := SinkTableName(entityType);
      && |name| == |entityType| + 1 && name[|entityType|] == 's'
      && forall i :: 0 <= i < |entityType| ==>
           name[i] == if 'A' <= entityType[i] <= 'Z' then (entityType[i] as int + 32) as char else entityType[i]
  {
    hide Trim, Filter;
    TrimNameChars(entityType);
    FilterAll(ToLower(entityType));
  }

  lemma LowerAppend(a: string, b: string)
    ensures ToLower(a + b) == ToLower(a) + ToLower(b)
  {
  }

  lemma DashesAppend(a: string, b: string)
    ensures DashesToUnderscores(a + b) == DashesToUnderscores(a) + DashesToUnderscores(b)
  {
  }

  /** Any other character inside a name is left out of the column. */
  lemma ColumnNameDrops(a: string, c: char, b: string)
    requires !NameChar(c) && Trimmed(a + [c] + b) && Trimmed(a + b)
    ensures SafeColumnName(a + [c] + b) == SafeColumnName(a + b)
  {
    hide Trim, ToLower, DashesToUnderscores, Filter, NameChar, IsIdentifierChar;
    TrimOfTrimmed(a + [c] + b);
    TrimOfTrimmed(a + b);
    var x, y := DashesToUnderscores(ToLower(a)), DashesToUnderscores(ToLower(b));
    var z := DashesToUnderscores(ToLower([c]));
    LowerAppend(a + [c], b);
    LowerAppend(a, [c]);
    LowerAppend(a, b);
    DashesAppend(ToLower(a) + ToLower([c]), ToLower(b));
    DashesAppend(ToLower(a), ToLower([c]));
    DashesAppend(ToLower(a), ToLower(b));
    OtherIsDropped(c);
    FilterAppend(IsIdentifierChar, x + z, y);
    FilterAppend(IsIdentifierChar, x, z);
    FilterAppend(IsIdentifierChar, x, y);
  }

  lemma OtherIsDropped(c: char)
    requires !NameChar(c)
    ensures Filter(IsIdentifierChar, DashesToUnderscores(ToLower([c]))) == []
  {
    var z := DashesToUnderscores(ToLower([c]));
    assert |z| == 1 && !IsIdentifierChar(z[0]);
    assert z[1..] == [];
  }

  /** Only fields that would take one of the server's two columns, or have no name left, are not stored. */
  lemma StoredIff(field: string)
    ensures EntityColumnName(field) == "" <==>
      SafeColumnName(field) == "" || SafeColumnName(field) == "created_at" || SafeColumnName(field) == "updated_at"
    ensures EntityColumnName(field) != "" ==> EntityColumnName(field) == SafeColumnName(field)
  {
    hide SafeColumnName;
  }
}
