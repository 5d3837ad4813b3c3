/** The persister itself: the methods that run the statements, proved against `MySqlSink.Apply`. */
module MySqlPersister {
  import opened Basics
  import opened MySqlSink

  /** `order` lists the stored ones of `fields`, each once: what one pass over a Go map visits. */
  ghost predicate Enumerates(order: seq<string>, fields: set<string>) {
    && (forall i, j :: 0 <= i < j < |order| ==> order[i] != order[j])
    && (forall f :: f in order <==> f in fields && Stored(f))
  }

  /** `names` are the `fixed` ones and then the column of each field in `order`. */
  ghost predicate NamesFrom(names: seq<string>, fixed: seq<string>, order: seq<string>) {
    && |names| == |fixed| + |order|
    && names[..|fixed|] == fixed
    && (forall k :: 0 <= k < |order| ==> names[|fixed| + k] == EntityColumnName(order[k]))
  }

  lemma FixedColumnsAreFixedTypes()
    ensures DistinctNames(FIXED_COLUMNS)
    ensures forall c :: c in FIXED_TYPES <==> c in FIXED_COLUMNS
  {
  }

  lemma FixedCells(meta: Metadata)
    ensures FixedWrites(meta).Keys == FIXED_TYPES.Keys && |FixedValues(meta)| == |FIXED_COLUMNS|
    ensures forall i :: 0 <= i < |FIXED_COLUMNS| ==>
      FIXED_COLUMNS[i] in FixedWrites(meta) && FixedValues(meta)[i] == FixedWrites(meta)[FIXED_COLUMNS[i]]
  {
  }

  lemma BaseColumns(columns: set<string>)
    ensures HasBaseColumns(columns) ==> HASH in columns && FIXED_TYPES.Keys <= columns + {RECOLLECT}
    ensures RECOLLECT in FIXED_TYPES && FIXED_TYPES[RECOLLECT] == LongText
  {
  }

  /** A statement that names the six fixed columns and then every stored field's repeats a name iff the fields clash. */
  lemma DistinctIffClean(names: seq<string>, order: seq<string>, structure: map<string, string>)
    requires Enumerates(order, structure.Keys) && NamesFrom(names, FIXED_COLUMNS, order)
    ensures DistinctNames(names) <==> Clean(structure)
  {
    hide EntityColumnName;
    FixedColumnsAreFixedTypes();
    var fixed := |FIXED_COLUMNS|;
    if Clean(structure) {
      forall i, j | 0 <= i < j < |names|
        ensures names[i] != names[j]
      {
        if j < fixed {
          assert FIXED_COLUMNS[i] != FIXED_COLUMNS[j];
        } else if i < fixed {
          assert names[i] in FIXED_COLUMNS;
          assert order[j - fixed] in order;
        } else {
          assert order[i - fixed] in order && order[j - fixed] in order;
          assert order[i - fixed] != order[j - fixed];
        }
      }
    }
    if DistinctNames(names) {
      forall f | f in structure && Stored(f)
        ensures EntityColumnName(f) !in FIXED_TYPES
      {
        var k :| 0 <= k < |order| && order[k] == f;
        forall i | 0 <= i < fixed
          ensures FIXED_COLUMNS[i] != EntityColumnName(f)
        {
          assert names[i] != names[fixed + k];
        }
      }
      forall f, g | f in structure && g in structure && Stored(f) && Stored(g) && f != g
        ensures EntityColumnName(f) != EntityColumnName(g)
      {
        var k :| 0 <= k < |order| && order[k] == f;
        var l :| 0 <= l < |order| && order[l] == g;
        assert names[fixed + Min(k, l)] != names[fixed + Max(k, l)];
      }
    }
  }

  /** One more entry, of a name not seen before. */
  lemma PairMapLast<T>(names: seq<string>, values: seq<T>, m: map<string, T>)
    requires |names| == |values| > 0
    requires var n := |names| - 1;
      names[n] in m && m[names[n]] == values[n] && PairMap(names[..n], values[..n]) == m - {names[n]}
    ensures PairMap(names, values) == m
  {
    var n := |names| - 1;
    var rest := m - {names[n]};
    assert rest[names[n] := values[n]] == m;
  }

  lemma {:induction false} PairMapIs<T>(names: seq<string>, values: seq<T>, m: map<string, T>)
    requires |names| == |values| && DistinctNames(names)
    requires forall i :: 0 <= i < |names| ==> names[i] in m && m[names[i]] == values[i]
    requires forall c :: c in m ==> c in names
    ensures PairMap(names, values) == m
  {
    hide PairMap;
    if names == [] {
      PairMapNone(names, values, m);
    } else {
      var n := |names| - 1;
      var before := names[..n];
      var rest := m - {names[n]};
      forall i | 0 <= i < n
        ensures before[i] in rest && rest[before[i]] == values[..n][i]
      {
        assert names[i] != names[n];
      }
      forall c | c in rest
        ensures c in before
      {
        InFront(names, c);
      }
      PairMapIs(before, values[..n], rest);
      PairMapLast(names, values, m);
    }
  }

  lemma PairMapNone<T>(names: seq<string>, values: seq<T>, m: map<string, T>)
    requires names == [] && values == [] && m.Keys == {}
    ensures PairMap(names, values) == m
  {
  }

  lemma InFront(names: seq<string>, c: string)
    requires names != [] && c in names && c != names[|names| - 1]
    ensures c in names[..|names| - 1]
  {
  }

  lemma {:induction false} PairMapAppend<T>(a: seq<string>, x: seq<T>, b: seq<string>, y: seq<T>)
    requires |a| == |x| && |b| == |y|
    ensures PairMap(a + b, x + y) == PairMap(a, x) + PairMap(b, y)
  {
    if b == [] {
      assert a + b == a && x + y == x;
    } else {
      var n := |b| - 1;
      PairMapAppend(a, x, b[..n], y[..n]);
      assert (a + b)[..|a| + n] == a + b[..n] && (x + y)[..|a| + n] == x + y[..n];
    }
  }

  lemma FieldEntries<T>(
    cols: seq<string>, values: seq<T>, order: seq<string>, structure: map<string, string>, fields: map<string, T>)
    requires Enumerates(order, structure.Keys) && DistinctNames(cols) && |values| == |cols| == |order|
    requires forall k :: 0 <= k < |order| ==>
      cols[k] == EntityColumnName(order[k]) && cols[k] in fields && values[k] == fields[cols[k]]
    requires forall c :: c in fields ==> exists f :: f in structure && Stored(f) && EntityColumnName(f) == c
    ensures PairMap(cols, values) == fields
  {
    hide EntityColumnName;
    forall c | c in fields
      ensures c in cols
    {
      var f :| f in structure && Stored(f) && EntityColumnName(f) == c;
      var k :| 0 <= k < |order| && order[k] == f;
      assert cols[k] == c;
    }
    PairMapIs(cols, values, fields);
  }

  /** Entries for the fixed columns followed by one for each stored field make up both maps together. */
  lemma FixedAndFields<T>(
    names: seq<string>, values: seq<T>, head: seq<string>, order: seq<string>, structure: map<string, string>,
    fixed: map<string, T>, fields: map<string, T>)
    requires Enumerates(order, structure.Keys) && NamesFrom(names, head, order) && DistinctNames(names)
    requires |values| == |names|
    requires forall c :: c in fixed <==> c in head
    requires forall i :: 0 <= i < |head| ==> head[i] in fixed && values[i] == fixed[head[i]]
    requires forall k :: 0 <= k < |order| ==>
      EntityColumnName(order[k]) in fields && values[|head| + k] == fields[EntityColumnName(order[k])]
    requires forall c :: c in fields ==> exists f :: f in structure && Stored(f) && EntityColumnName(f) == c
    ensures PairMap(names, values) == fixed + fields
  {
    hide EntityColumnName, PairMap;
    var n := |head|;
    assert PairMap(names[..n], values[..n]) == fixed by {
      PairMapIs(names[..n], values[..n], fixed);
    }
    assert PairMap(names[n..], values[n..]) == fields by {
      FieldEntries(names[n..], values[n..], order, structure, fields);
    }
    assert PairMap(names, values) == PairMap(names[..n], values[..n]) + PairMap(names[n..], values[n..]) by {
      PairMapAppend(names[..n], values[..n], names[n..], values[n..]);
      assert names == names[..n] + names[n..] && values == values[..n] + values[n..];
    }
  }

  /** Columns added one after the other are the columns added at once. */
  lemma AddOneMore(db: Database, name: string, types: map<string, SqlType>, col: string, ty: SqlType)
    requires name in db && RowsComplete(db[name]) && col !in types && col !in db[name].columns
    ensures AlterAddColumn(WithColumns(db, name, types), name, col, ty)
         == Some(WithColumns(db, name, types[col := ty]))
  {
    AddColumnsTwice(db[name], types, col, ty);
    var once := WithColumns(db, name, types);
    assert once[name := AddColumns(once[name], map[col := ty])] == db[name := AddColumns(db[name], types[col := ty])];
  }

  lemma ExtendRowTwice(row: Row, some: set<string>, all: set<string>)
    requires row.Keys <= some <= all
    ensures ExtendRow(ExtendRow(row, some), all) == ExtendRow(row, all)
  {
  }

  lemma AddColumnsTwice(t: Table, types: map<string, SqlType>, col: string, ty: SqlType)
    requires RowsComplete(t) && col !in types && col !in t.columns
    ensures AddColumns(AddColumns(t, types), map[col := ty]) == AddColumns(t, types[col := ty])
  {
    var some := types + t.columns;
    var all := map[col := ty] + some;
    assert all == types[col := ty] + t.columns;
    forall h | h in t.rows
      ensures ExtendRow(ExtendRow(t.rows[h], some.Keys), all.Keys) == ExtendRow(t.rows[h], all.Keys)
    {
      ExtendRowTwice(t.rows[h], some.Keys, all.Keys);
    }
    assert AddColumns(AddColumns(t, types), map[col := ty]).rows == AddColumns(t, types[col := ty]).rows;
  }

  lemma AddNothing(db: Database, name: string)
    requires name in db && RowsComplete(db[name])
    ensures WithColumns(db, name, map[]) == db
  {
    var t := db[name];
    assert map[] + t.columns == t.columns;
    forall h | h in t.rows
      ensures ExtendRow(t.rows[h], t.columns.Keys) == t.rows[h]
    {
    }
    assert AddColumns(t, map[]).rows == t.rows;
  }

  /** Only the columns that are not there yet matter. */
  lemma SameAddition(db: Database, name: string, added: map<string, SqlType>, types: map<string, SqlType>)
    requires forall c :: c in added ==> c in types && added[c] == types[c]
    requires types.Keys <= added.Keys + Columns(db, name).Keys
    ensures WithColumns(db, name, added) == WithColumns(db, name, types)
  {
    assert added + Columns(db, name) == types + Columns(db, name);
  }

  lemma ReadyCovers(columns: set<string>, structure: map<string, string>)
    requires Clean(structure) && ColumnsReady(columns, structure)
    ensures Types(structure).Keys <= columns
  {
    hide EntityColumnName;
  }

  lemma TypesReady(structure: map<string, string>)
    requires Clean(structure)
    ensures ColumnsReady(Types(structure).Keys, structure)
  {
    forall f | f in structure && Stored(f)
      ensures EntityColumnName(f) in Types(structure)
    {
      TypeOfField(structure, f);
    }
  }

  /** No two of `fields` would add the same column to the ones in `have`. */
  ghost predicate NewColumnsDistinct(fields: set<string>, have: set<string>) {
    forall f, g :: f in fields && g in fields && f != g && Stored(f) && EntityColumnName(f) == EntityColumnName(g) ==>
      EntityColumnName(f) in have + {RECOLLECT}
  }

  /** How far the ALTER loop has come: `done` are the fields visited, `added` the columns added to those it found. */
  ghost predicate Progress(
    have: set<string>, added: map<string, SqlType>, structure: map<string, string>, done: set<string>) {
    && RECOLLECT in have + added.Keys
    && added.Keys !! have
    && (forall f :: f in done && Stored(f) ==> EntityColumnName(f) in have + added.Keys)
    && (forall c :: c in added && c != RECOLLECT ==>
          exists f :: f in done && Stored(f) && EntityColumnName(f) == c)
    && NewColumnsDistinct(done, have)
  }

  lemma ProgressStep(
    have: set<string>, added: map<string, SqlType>, structure: map<string, string>, done: set<string>, field: string)
    requires Progress(have, added, structure, done) && field in structure && field !in done
    requires done <= structure.Keys
    ensures var col := EntityColumnName(field);
      if col == "" || col in have + {RECOLLECT} then Progress(have, added, structure, done + {field})
      else if col in added then !NewColumnsDistinct(structure.Keys, have)
      else Progress(have, added[col := TypeFor(structure[field])], structure, done + {field})
  {
    hide EntityColumnName, FIXED_TYPES, RECOLLECT;
    var col := EntityColumnName(field);
    if col != "" && col !in have + {RECOLLECT} {
      if col in added {
        var f :| f in done && Stored(f) && EntityColumnName(f) == col;
        assert f in structure.Keys && field in structure.Keys;
      } else {
        StillDistinct(have, added.Keys, done, field);
      }
    } else {
      StillDistinct(have, {}, done, field);
    }
  }

  lemma StillDistinct(have: set<string>, added: set<string>, done: set<string>, field: string)
    requires NewColumnsDistinct(done, have)
    requires !Stored(field) || EntityColumnName(field) in have + {RECOLLECT} ||
      (EntityColumnName(field) !in added &&
       forall f :: f in done && Stored(f) ==> EntityColumnName(f) in have + added)
    ensures NewColumnsDistinct(done + {field}, have)
  {
    hide EntityColumnName, RECOLLECT;
  }

  lemma ProgressStart(have: set<string>, added: map<string, SqlType>, structure: map<string, string>)
    requires added == if RECOLLECT in have then map[] else map[RECOLLECT := LongText]
    ensures Progress(have, added, structure, {}) && AskedFor(added, structure)
  {
    hide EntityColumnName;
  }

  /** One more column that a field asks for. */
  lemma AskedForMore(added: map<string, SqlType>, structure: map<string, string>, field: string)
    requires AskedFor(added, structure) && field in structure && Stored(field)
    ensures AskedFor(added[EntityColumnName(field) := TypeFor(structure[field])], structure)
  {
    hide EntityColumnName, RECOLLECT;
  }

  lemma AddedKeys(before: Database, name: string, added: map<string, SqlType>)
    requires name in before
    ensures WithColumns(before, name, added)[name].columns.Keys == before[name].columns.Keys + added.Keys
  {
  }

  /** A finished loop has added exactly what the message asks for. */
  lemma ProgressEnd(before: Database, name: string, added: map<string, SqlType>, structure: map<string, string>)
    requires name in before && ValidTable(before[name]) && AskedFor(added, structure)
    requires Progress(before[name].columns.Keys, added, structure, structure.Keys)
    ensures ColumnsReady(WithColumns(before, name, added)[name].columns.Keys, structure)
    ensures Clean(structure) ==> WithColumns(before, name, added) == WithColumns(before, name, Types(structure))
  {
    hide EntityColumnName, Types, Clean, AskedFor;
    AddedKeys(before, name, added);
    if Clean(structure) {
      AskedForTypes(added, structure);
      ReadyCovers(before[name].columns.Keys + added.Keys, structure);
      SameAddition(before, name, added, Types(structure));
    }
  }

  lemma CleanColumnsDistinct(structure: map<string, string>, have: set<string>)
    requires Clean(structure)
    ensures NewColumnsDistinct(structure.Keys, have)
  {
    hide EntityColumnName, FIXED_TYPES;
  }

  ghost predicate TypesFrom(types: seq<SqlType>, order: seq<string>, structure: map<string, string>) {
    && |types| == |FIXED_COLUMNS| + |order|
    && (forall i :: 0 <= i < |FIXED_COLUMNS| ==> types[i] == FIXED_TYPES[FIXED_COLUMNS[i]])
    && (forall k :: 0 <= k < |order| ==>
          order[k] in structure && types[|FIXED_COLUMNS| + k] == TypeFor(structure[order[k]]))
  }

  ghost predicate ValuesFrom(values: seq<Value>, order: seq<string>, msg: Message) {
    && |values| == |FIXED_COLUMNS| + |order|
    && (forall i :: 0 <= i < |FIXED_COLUMNS| ==> values[i] == FixedValues(msg.meta)[i])
    && (forall k :: 0 <= k < |order| ==> values[|FIXED_COLUMNS| + k] == FieldValue(msg, order[k]))
  }

  /** The columns a CREATE TABLE statement declares are the types the message asks for. */
  lemma DeclaredTypes(names: seq<string>, types: seq<SqlType>, order: seq<string>, structure: map<string, string>)
    requires Clean(structure) && Enumerates(order, structure.Keys)
    requires NamesFrom(names, FIXED_COLUMNS, order) && DistinctNames(names) && TypesFrom(types, order, structure)
    ensures PairMap(names, types) == Types(structure)
  {
    hide EntityColumnName, FIXED_COLUMNS, FIXED_TYPES;
    FixedColumnsAreFixedTypes();
    forall k | 0 <= k < |order|
      ensures EntityColumnName(order[k]) in FieldTypes(structure) &&
        types[|FIXED_COLUMNS| + k] == FieldTypes(structure)[EntityColumnName(order[k])]
    {
      assert order[k] in order;
    }
    FixedAndFields(names, types, FIXED_COLUMNS, order, structure, FIXED_TYPES, FieldTypes(structure));
  }

  lemma WriteOfField(msg: Message, field: string)
    requires Clean(msg.structure) && field in msg.structure && Stored(field)
    ensures EntityColumnName(field) in FieldWrites(msg)
    ensures FieldWrites(msg)[EntityColumnName(field)] == FieldValue(msg, field)
  {
    hide EntityColumnName;
  }

  lemma WritesAreOfFields(msg: Message)
    requires Clean(msg.structure)
    ensures forall c :: c in FieldWrites(msg) ==>
      exists f :: f in msg.structure && Stored(f) && EntityColumnName(f) == c
  {
    hide EntityColumnName;
  }

  lemma FieldCells(values: seq<Value>, order: seq<string>, msg: Message)
    requires Clean(msg.structure) && Enumerates(order, msg.structure.Keys) && ValuesFrom(values, order, msg)
    ensures forall k :: 0 <= k < |order| ==>
      EntityColumnName(order[k]) in FieldWrites(msg) &&
      values[|FIXED_COLUMNS| + k] == FieldWrites(msg)[EntityColumnName(order[k])]
  {
    hide EntityColumnName, FIXED_COLUMNS, FixedValues, FieldWrites, Clean;
    forall k | 0 <= k < |order|
      ensures EntityColumnName(order[k]) in FieldWrites(msg) &&
        values[|FIXED_COLUMNS| + k] == FieldWrites(msg)[EntityColumnName(order[k])]
    {
      assert order[k] in order;
      WriteOfField(msg, order[k]);
    }
  }

  lemma FixedCellsFirst(values: seq<Value>, order: seq<string>, msg: Message)
    requires ValuesFrom(values, order, msg)
    ensures forall i :: 0 <= i < |FIXED_COLUMNS| ==>
      FIXED_COLUMNS[i] in FixedWrites(msg.meta) && values[i] == FixedWrites(msg.meta)[FIXED_COLUMNS[i]]
    ensures forall c :: c in FixedWrites(msg.meta) <==> c in FIXED_COLUMNS
  {
    hide FIXED_COLUMNS, FIXED_TYPES, FixedValues, FixedWrites;
    FixedColumnsAreFixedTypes();
    FixedCells(msg.meta);
  }

  /** The cells an upsert statement assigns are the cells the message writes. */
  lemma AssignedCells(columns: seq<string>, values: seq<Value>, order: seq<string>, msg: Message)
    requires Clean(msg.structure) && Enumerates(order, msg.structure.Keys)
    requires NamesFrom(columns, FIXED_COLUMNS, order) && DistinctNames(columns) && ValuesFrom(values, order, msg)
    ensures PairMap(columns, values) == Writes(msg)
  {
    FixedCellsFirst(values, order, msg);
    FieldCells(values, order, msg);
    WritesAreOfFields(msg);
    NamesLength(columns, order);
    hide EntityColumnName, FIXED_COLUMNS, FIXED_TYPES, FixedWrites, FixedValues, FieldWrites, PairMap, Clean, NamesFrom;
    hide Enumerates, DistinctNames;
    FixedAndFields(
      columns, values, FIXED_COLUMNS, order, msg.structure, FixedWrites(msg.meta), FieldWrites(msg));
  }

  lemma NamesLength(columns: seq<string>, order: seq<string>)
    requires NamesFrom(columns, FIXED_COLUMNS, order)
    ensures |columns| == |FIXED_COLUMNS| + |order|
  {
    hide EntityColumnName, FIXED_COLUMNS;
  }

  lemma NewTable(types: map<string, SqlType>)
    ensures AddColumns(NO_TABLE, types) == Table(types, map[])
  {
    assert types + map[] == types;
  }

  /** Everything an upsert of this structure names is there. */
  ghost predicate ColumnsReady(columns: set<string>, structure: map<string, string>) {
    && FIXED_TYPES.Keys <= columns
    && forall f :: f in structure && Stored(f) ==> EntityColumnName(f) in columns
  }

  lemma NamedColumnsExist(names: seq<string>, order: seq<string>, structure: map<string, string>, columns: set<string>)
    requires Enumerates(order, structure.Keys) && NamesFrom(names, FIXED_COLUMNS, order)
    requires ColumnsReady(columns, structure)
    ensures forall c :: c in names ==> c in columns
  {
    hide EntityColumnName;
    FixedColumnsAreFixedTypes();
    forall i | 0 <= i < |names|
      ensures names[i] in columns
    {
      if i < |FIXED_COLUMNS| {
        assert FIXED_COLUMNS[i] in FIXED_TYPES;
      } else {
        assert order[i - |FIXED_COLUMNS|] in order;
      }
    }
  }

  /** What the server does with a statement: runs it, refuses it or never gets it, or runs it but the reply is lost. */
  datatype Answer = Runs | Refuses | LosesReply

  ghost predicate AllRun(answers: nat -> Answer) {
    forall k :: answers(k).Runs?
  }

  datatype Outcome = Persisted | BadEnvelope | StatementFailed

  class Persister {
    var db: Database

    constructor (initial: Database)
      requires ValidDatabase(initial)
      ensures db == initial
    {
      db := initial;
    }

    /** Sends one statement, whose result on the database is `result`; None is an error of the statement's own. */
    method Exec(result: Option<Database>, a: Answer) returns (ok: bool)
      modifies this
      ensures ok <==> result.Some? && a.Runs?
      ensures db == if result.Some? && !a.Refuses? then result.value else old(db)
    {
      if result.None? || a.Refuses? {
        return false;
      }
      db := result.value;
      ok := a.Runs?;
    }

    method CreateTable(name: string, structure: map<string, string>, a: Answer) returns (ok: bool)
      requires ValidDatabase(db) && name !in db
      modifies this
      ensures ok <==> Clean(structure) && a.Runs?
      ensures db == if Clean(structure) && !a.Refuses? then WithColumns(old(db), name, Types(structure)) else old(db)
    {
      hide EntityColumnName;
      var cols := [
        (HASH, Char64), ("source_unique_id", LongText), ("source_collector_type", Varchar255),
        ("source_system", Varchar255), ("observed_unix_ms", BigInt), (RECOLLECT, LongText)];
      var todo := structure.Keys;
      ghost var order: seq<string> := [];
      while todo != {}
        invariant todo <= structure.Keys
        invariant Enumerates(order, structure.Keys - todo)
        invariant NamesFrom(NamesOf(cols), FIXED_COLUMNS, order)
        invariant TypesFrom(TypesOf(cols), order, structure)
        decreases todo
      {
        var field :| field in todo;
        todo := todo - {field};
        var col := EntityColumnName(field);
        if col != "" {
          cols := cols + [(col, TypeFor(structure[field]))];
          order := order + [field];
        }
      }
      assert structure.Keys - todo == structure.Keys;
      CreateStatement(db, name, cols, order, structure);
      ok := Exec(CreateIfMissing(db, name, cols), a);
    }

    /**
     Creates the table or adds the columns it lacks; `answers` are the server's, statement by statement, and `sent` is
     how many were sent. `added` are the columns added to an existing table, when it fails half way too.
     */
    method EnsureTable(name: string, structure: map<string, string>, answers: nat -> Answer)
      returns (ok: bool, sent: nat, ghost added: map<string, SqlType>)
      requires ValidDatabase(db)
      modifies this
      ensures ok ==> name in db && ColumnsReady(db[name].columns.Keys, structure)
      ensures name in old(db) ==> AskedFor(added, structure) && db == WithColumns(old(db), name, added)
      ensures name !in old(db) ==>
        db == old(db) || (Clean(structure) && db == WithColumns(old(db), name, Types(structure)))
      ensures ok && Clean(structure) ==> db == WithColumns(old(db), name, Types(structure))
      ensures AllRun(answers) ==> (ok <==>
        if name in old(db) then NewColumnsDistinct(structure.Keys, old(db)[name].columns.Keys) else Clean(structure))
    {
      hide EntityColumnName, FIXED_COLUMNS, FIXED_TYPES, HASH, RECOLLECT, HasBaseColumns;
      hide Progress, Clean, Types, ColumnsReady, AddColumns, AskedFor, NewColumnsDistinct;
      ghost var before := db;
      added := map[];
      NothingAsked(structure);
      if name in db {
        AddNothing(db, name);
      }
      sent := 1;
      if !answers(0).Runs? {
        return false, sent, added;
      }
      var existing := if name in db then db[name].columns.Keys else {};
      if existing == {} {
        assert name in db ==> ValidTable(db[name]);
        BaseColumns(existing);
        ok := CreateTable(name, structure, answers(sent));
        sent := sent + 1;
        if ok {
          TypesReady(structure);
          NewTable(Types(structure));
        }
        return;
      }
      ghost var have := existing;
      if RECOLLECT !in existing {
        AddOneMore(before, name, added, RECOLLECT, LongText);
        RecollectAsked(structure);
        ok := Exec(AlterAddColumn(db, name, RECOLLECT, LongText), answers(sent));
        if !answers(sent).Refuses? {
          added := added[RECOLLECT := LongText];
        }
        sent := sent + 1;
        if !ok {
          return;
        }
        existing := existing + {RECOLLECT};
      }
      ProgressStart(have, added, structure);
      assert structure.Keys - structure.Keys == {};
      var todo := structure.Keys;
      while todo != {}
        invariant todo <= structure.Keys
        invariant existing == have + {RECOLLECT}
        invariant db == WithColumns(before, name, added) && AskedFor(added, structure)
        invariant Progress(have, added, structure, structure.Keys - todo)
        decreases todo
      {
        var field :| field in todo;
        ProgressStep(have, added, structure, structure.Keys - todo, field);
        assert structure.Keys - (todo - {field}) == structure.Keys - todo + {field};
        todo := todo - {field};
        var col := EntityColumnName(field);
        if col == "" || col in existing {
          continue;
        }
        AddedKeys(before, name, added);
        var alter := AlterAddColumn(db, name, col, TypeFor(structure[field]));
        ok := Exec(alter, answers(sent));
        if alter.Some? && !answers(sent).Refuses? {
          AddOneMore(before, name, added, col, TypeFor(structure[field]));
          AskedForMore(added, structure, field);
          added := added[col := TypeFor(structure[field])];
        }
        sent := sent + 1;
        if !ok {
          return;
        }
      }
      assert structure.Keys - todo == structure.Keys;
      ProgressEnd(before, name, added, structure);
      LoopDistinct(have, added, structure);
      ok := true;
    }

    method UpsertEntity(name: string, msg: Message, a: Answer) returns (ok: bool)
      requires ValidDatabase(db) && name in db && ColumnsReady(db[name].columns.Keys, msg.structure)
      modifies this
      ensures ok <==> Clean(msg.structure) && a.Runs?
      ensures db == if Clean(msg.structure) && !a.Refuses?
        then old(db)[name := WriteRow(old(db)[name], msg.meta.hashValue, Writes(msg))]
        else old(db)
    {
      hide EntityColumnName, FIXED_COLUMNS, FIXED_TYPES;
      var columns := FIXED_COLUMNS;
      var values := FixedValues(msg.meta);
      var todo := msg.structure.Keys;
      ghost var order: seq<string> := [];
      while todo != {}
        invariant todo <= msg.structure.Keys
        invariant Enumerates(order, msg.structure.Keys - todo)
        invariant NamesFrom(columns, FIXED_COLUMNS, order)
        invariant ValuesFrom(values, order, msg)
        decreases todo
      {
        var field :| field in todo;
        todo := todo - {field};
        var col := EntityColumnName(field);
        if col == "" {
          continue;
        }
        columns := columns + [col];
        values := values + [FieldValue(msg, field)];
        order := order + [field];
      }
      assert msg.structure.Keys - todo == msg.structure.Keys;
      UpsertStatement(db, name, columns, values, order, msg);
      ok := Exec(InsertOrUpdate(db, name, columns, values), a);
    }

    /**
     Stores one entity, whatever the server does with each statement. While the server runs them all it succeeds
     exactly on the accepted messages; success means that the message was applied, and failure leaves a known rest.
     */
    method PersistEntity(msg: Message, answers: nat -> Answer) returns (r: Outcome)
      requires ValidDatabase(db)
      modifies this
      ensures ValidDatabase(db)
      ensures r.BadEnvelope? <==> !EnvelopeOk(msg)
      ensures r.BadEnvelope? <==>
        msg.kind != "Entity" || msg.schemaVersion != "v1" || SinkTableName(msg.meta.entityType) == ""
      ensures r.BadEnvelope? ==> db == old(db)
      ensures r.Persisted? ==> Accepted(msg) && db == Apply(old(db), msg)
      ensures r.Persisted? ==> HoldsFields(db, msg) && HoldsSource(db, msg)
      ensures r.StatementFailed? ==> Leftover(old(db), msg, db)
      ensures AllRun(answers) ==> (r.Persisted? <==> Accepted(msg))
    {
      hide EntityColumnName, AskedFor, NewColumnsDistinct, Types, WithColumns, WriteRow, Clean, HoldsFields;
      hide HoldsSource;
      if msg.kind != "Entity" || msg.schemaVersion != "v1" {
        return BadEnvelope;
      }
      var name := SinkTableName(msg.meta.entityType);
      if name == "" {
        return BadEnvelope;
      }
      ghost var before := db;
      var ensured, sent, added := EnsureTable(name, msg.structure, answers);
      assert Leftover(before, msg, db);
      LeftoverView(before, msg, db);
      if Clean(msg.structure) && name in before {
        CleanColumnsDistinct(msg.structure, before[name].columns.Keys);
      }
      if !ensured {
        return StatementFailed;
      }
      var stored := UpsertEntity(name, msg, answers(sent));
      if Clean(msg.structure) {
        ApplyView(before, msg);
        FieldsAreStored(before, msg);
        SourceIsStored(before, msg);
      }
      r := if stored then Persisted else StatementFailed;
    }
  }

  lemma NothingAsked(structure: map<string, string>)
    ensures AskedFor(map[], structure)
  {
  }

  lemma RecollectAsked(structure: map<string, string>)
    ensures AskedFor(map[RECOLLECT := LongText], structure)
  {
  }

  lemma LoopDistinct(have: set<string>, added: map<string, SqlType>, structure: map<string, string>)
    requires Progress(have, added, structure, structure.Keys)
    ensures NewColumnsDistinct(structure.Keys, have)
  {
    hide NewColumnsDistinct, EntityColumnName;
  }

  /******* The two statements that name all columns *******/

  /** The columns CREATE TABLE declares, when the fields are visited in this order. */
  ghost predicate CreateColumns(cols: seq<(string, SqlType)>, order: seq<string>, structure: map<string, string>) {
    && Enumerates(order, structure.Keys)
    && NamesFrom(NamesOf(cols), FIXED_COLUMNS, order)
    && TypesFrom(TypesOf(cols), order, structure)
  }

  /** In any order, CREATE TABLE fails exactly when the fields clash, and else creates the table asked for. */
  lemma CreateStatement(
    db: Database, name: string, cols: seq<(string, SqlType)>, order: seq<string>, structure: map<string, string>)
    requires CreateColumns(cols, order, structure) && name !in db
    ensures CreateIfMissing(db, name, cols) ==
      if Clean(structure) then Some(WithColumns(db, name, Types(structure))) else None
  {
    hide EntityColumnName, Types, PairMap, TypesFrom;
    DistinctIffClean(NamesOf(cols), order, structure);
    if Clean(structure) {
      DeclaredTypes(NamesOf(cols), TypesOf(cols), order, structure);
      NewTable(Types(structure));
    }
  }

  /** The columns and values of the upsert, when the fields are visited in this order. */
  ghost predicate UpsertColumns(columns: seq<string>, values: seq<Value>, order: seq<string>, msg: Message) {
    && Enumerates(order, msg.structure.Keys)
    && NamesFrom(columns, FIXED_COLUMNS, order)
    && ValuesFrom(values, order, msg)
  }

  lemma UpsertShape(columns: seq<string>, values: seq<Value>, order: seq<string>, msg: Message)
    requires UpsertColumns(columns, values, order, msg)
    ensures |columns| == |values| > 0 && values[0] == Str(msg.meta.hashValue)
  {
    hide EntityColumnName;
  }

  /** In any order, on a table with the columns needed, the upsert fails exactly when the fields clash, and else writes
   the row. */
  lemma UpsertStatement(
    db: Database, name: string, columns: seq<string>, values: seq<Value>, order: seq<string>, msg: Message)
    requires UpsertColumns(columns, values, order, msg)
    requires name in db && ColumnsReady(db[name].columns.Keys, msg.structure)
    ensures |columns| == |values| > 0 && values[0].Str?
    ensures InsertOrUpdate(db, name, columns, values) ==
      if Clean(msg.structure) then Some(db[name := WriteRow(db[name], msg.meta.hashValue, Writes(msg))]) else None
  {
    hide EntityColumnName, FIXED_COLUMNS, FIXED_TYPES, Writes, PairMap, WriteRow, Clean, ValuesFrom;
    UpsertShape(columns, values, order, msg);
    DistinctIffClean(columns, order, msg.structure);
    NamedColumnsExist(columns, order, msg.structure, db[name].columns.Keys);
    if Clean(msg.structure) {
      AssignedCells(columns, values, order, msg);
    }
  }
}
